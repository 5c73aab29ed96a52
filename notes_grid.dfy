/**
 * The notes grid of src/components/Notes/NotesGrid.tsx: which notices it
 * shows, the create-note button and the drag-and-drop handler. The reorder
 * action is dispatched to the notices state, which the drag handler receives
 * as a parameter; the thunks it dispatches are returned as requests, in
 * dispatch order. The title the prompt returns is a parameter (None when the
 * prompt is dismissed).
 */
module NotesGrid {
  import opened Wrappers
  import opened Types
  import opened NoticeOrder
  import opened NoticesSlice

  /** The notices on show: the selected directory's, or all when nothing is selected. */
  function FilteredNotices(notices: seq<Notice>, selected: Option<string>): (r: seq<Notice>)
    ensures Truthy(selected) ==> r == OfDirectory(notices, selected.value)
    ensures !Truthy(selected) ==> r == notices
  {
    if Truthy(selected) then OfDirectory(notices, selected.value) else notices
  }

  /**
   * `handleCreateNote`: with no directory selected it only alerts; otherwise
   * a non-empty title creates an empty, untagged notice in the selected
   * directory and a dismissed or empty prompt does nothing.
   */
  method HandleCreateNote(selected: Option<string>, title: Option<string>) returns (alerted: bool, requests: seq<Request>)
    ensures alerted <==> !Truthy(selected)
    ensures Truthy(selected) && Truthy(title) ==>
      requests == [CreateNoticeRequest(NewNotice(selected.value, title.value, "", []))]
    ensures !(Truthy(selected) && Truthy(title)) ==> requests == []
  {
    if !Truthy(selected) {
      return true, [];
    }
    alerted := false;
    requests := [];
    if Truthy(title) {
      requests := [CreateNoticeRequest(NewNotice(selected.value, title.value, "", []))];
    }
  }

  /** The `{ id, position }` update sent for the notice at slot `i`. */
  function PositionUpdate(n: Notice, i: int): Request
  {
    UpdateNoticeRequest(NoticeUpdate(n.id, None, None, None, Some(i)))
  }

  /** One update per notice of `m` whose position differs from its slot, in slot order. */
  function PositionUpdates(m: seq<Notice>): seq<Request>
  {
    if m == [] then []
    else
      var k := |m| - 1;
      PositionUpdates(m[..k]) + if m[k].position != k then [PositionUpdate(m[k], k)] else []
  }

  lemma {:induction false} PositionUpdatesAre(m: seq<Notice>)
    ensures forall r :: r in PositionUpdates(m) ==> exists i :: 0 <= i < |m| && m[i].position != i && r == PositionUpdate(m[i], i)
    ensures forall i :: 0 <= i < |m| && m[i].position != i ==> PositionUpdate(m[i], i) in PositionUpdates(m)
  {
    if m != [] {
      var k := |m| - 1;
      PositionUpdatesAre(m[..k]);
      assert forall i :: 0 <= i < k ==> m[..k][i] == m[i];
    }
  }

  /** The slots of `m` whose notice's stored position differs from the slot, in increasing order. */
  function ChangedSlots(m: seq<Notice>): (r: seq<nat>)
    ensures forall j :: 0 <= j < |r| ==> r[j] < |m| && m[r[j]].position != r[j]
    ensures forall j, k :: 0 <= j < k < |r| ==> r[j] < r[k]
    ensures forall i :: 0 <= i < |m| && m[i].position != i ==> i in r
  {
    if m == [] then []
    else
      var k := |m| - 1;
      assert forall i :: 0 <= i < k ==> m[..k][i] == m[i];
      ChangedSlots(m[..k]) + if m[k].position != k then [k] else []
  }

  /** The handler sends exactly one update per changed slot, in slot order. */
  lemma {:induction false} PositionUpdatesInSlotOrder(m: seq<Notice>)
    ensures |PositionUpdates(m)| == |ChangedSlots(m)|
    ensures forall j :: 0 <= j < |PositionUpdates(m)| ==> PositionUpdates(m)[j] == PositionUpdate(m[ChangedSlots(m)[j]], ChangedSlots(m)[j])
  {
    if m != [] {
      var k := |m| - 1;
      var p := m[..k];
      PositionUpdatesInSlotOrder(p);
      var u, c := PositionUpdates(p), ChangedSlots(p);
      assert PositionUpdates(m) == u + if m[k].position != k then [PositionUpdate(m[k], k)] else [];
      assert ChangedSlots(m) == c + if m[k].position != k then [k] else [];
      forall j | 0 <= j < |u|
        ensures PositionUpdates(m)[j] == PositionUpdate(m[ChangedSlots(m)[j]], ChangedSlots(m)[j])
      {
        assert ChangedSlots(m)[j] == c[j] && c[j] < k && p[c[j]] == m[c[j]];
      }
    }
  }

  /** The update that sets a notice to its own stored position. */
  function PlacedAt(n: Notice): Request
  {
    UpdateNoticeRequest(NoticeUpdate(n.id, None, None, None, Some(n.position)))
  }

  /**
   * The updates for a list are the renumbered list's positions: each update
   * is the renumbered notice of some slot, and a slot without an update is
   * left as renumbering leaves it.
   */
  lemma UpdatesAreRenumbering(m: seq<Notice>)
    ensures forall r :: r in PositionUpdates(m) ==> exists i :: 0 <= i < |m| && r == PlacedAt(Renumbered(m)[i])
    ensures forall i :: 0 <= i < |m| ==> Renumbered(m)[i] == m[i] || PositionUpdate(m[i], i) in PositionUpdates(m)
  {
    PositionUpdatesAre(m);
    forall r | r in PositionUpdates(m) ensures exists i :: 0 <= i < |m| && r == PlacedAt(Renumbered(m)[i]) {
      var i :| 0 <= i < |m| && m[i].position != i && r == PositionUpdate(m[i], i);
      assert r == PlacedAt(Renumbered(m)[i]);
    }
  }

  /**
   * The updates the drag handler sends agree with the reducer: each one sets
   * a notice to the position the reducer gave the notice in that slot, and
   * every slot without an update already held that position.
   */
  lemma UpdatesAgreeWithReducer(items: seq<Notice>, src: int, dst: int, dir: string)
    requires SpliceStart(src, |OfDirectory(items, dir)|) < |OfDirectory(items, dir)|
    ensures
      var m := Moved(OfDirectory(items, dir), src, dst);
      var block := OfDirectory(Reordered(items, src, dst, dir), dir);
      |block| == |m| &&
      (forall r :: r in PositionUpdates(m) ==> exists i :: 0 <= i < |block| && r == PlacedAt(block[i])) &&
      (forall i :: 0 <= i < |m| ==> block[i] == m[i] || PositionUpdate(m[i], i) in PositionUpdates(m))
  {
    ReorderedProjections(items, src, dst, dir);
    UpdatesAreRenumbering(Moved(OfDirectory(items, dir), src, dst));
  }

  /**
   * `handleDragEnd`. Without a destination or a selected directory, or with
   * equal indices, nothing happens. Otherwise the reorder is dispatched; when
   * the reducer throws (the source index names no notice) the handler stops
   * there; else one position update goes out per notice of the re-spliced
   * pre-drag list whose stored position differs from its new slot.
   */
  method HandleDragEnd(notices: NoticesState, selected: Option<string>, src: int, dst: Option<int>) returns (requests: seq<Request>)
    modifies notices
    ensures dst.None? || !Truthy(selected) || src == dst.value ==> requests == [] && notices.items == old(notices.items)
    ensures dst.Some? && Truthy(selected) && src != dst.value ==>
      var block := OfDirectory(old(notices.items), selected.value);
      if SpliceStart(src, |block|) < |block| then
        notices.items == Reordered(old(notices.items), src, dst.value, selected.value) &&
        requests == PositionUpdates(Moved(block, src, dst.value))
      else
        notices.items == old(notices.items) && requests == []
    ensures notices.selectedId == old(notices.selectedId) && notices.isLoading == old(notices.isLoading)
    ensures notices.error == old(notices.error)
  {
    requests := [];
    if dst.None? || !Truthy(selected) {
      return;
    }
    var filtered := FilteredNotices(notices.items, selected);
    if src == dst.value {
      return;
    }
    var ok := notices.ReorderNotices(src, dst.value, selected.value);
    if !ok {
      return;
    }
    var reordered := Moved(filtered, src, dst.value);
    var k := 0;
    while k < |reordered|
      invariant 0 <= k <= |reordered|
      invariant requests == PositionUpdates(reordered[..k])
    {
      assert reordered[..k + 1][..k] == reordered[..k];
      if reordered[k].position != k {
        requests := requests + [PositionUpdate(reordered[k], k)];
      }
      k := k + 1;
    }
    assert reordered[..k] == reordered;
  }
}
