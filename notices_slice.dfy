/**
 * The reducers of src/store/slices/noticesSlice.ts over the notices state:
 * the flat list `items`, the selected id, the loading flag and the error.
 */
module NoticesSlice {
  import opened Wrappers
  import opened Types
  import opened NoticeOrder

  /** The error stored when a failed fetch carries no message. */
  const FetchFailed := "Failed to fetch notices"

  /** `items.findIndex(n => n.id === id)`: the first index with the id, or -1. */
  function NoticeIndex(s: seq<Notice>, id: string): (r: int)
    ensures r == -1 <==> forall i :: 0 <= i < |s| ==> s[i].id != id
    ensures r != -1 ==> 0 <= r < |s| && s[r].id == id && forall i :: 0 <= i < r ==> s[i].id != id
  {
    if s == [] then -1
    else if s[0].id == id then 0
    else
      var r := NoticeIndex(s[1..], id);
      assert forall i :: 1 <= i < |s| ==> s[i] == s[1..][i - 1];
      if r == -1 then -1 else r + 1
  }

  /** `items.filter(n => n.id !== id)`. */
  function WithoutId(s: seq<Notice>, id: string): (r: seq<Notice>)
    ensures |r| <= |s|
  {
    if s == [] then []
    else
      var n := |s| - 1;
      WithoutId(s[..n], id) + if s[n].id == id then [] else [s[n]]
  }

  /** Exactly the notices with another id survive a delete. */
  lemma {:induction false} WithoutIdMembers(s: seq<Notice>, id: string)
    ensures forall n :: n in WithoutId(s, id) <==> n in s && n.id != id
  {
    if s != [] {
      var n := |s| - 1;
      WithoutIdMembers(s[..n], id);
      assert s == s[..n] + [s[n]];
    }
  }

  /** Deleting distributes over concatenation: the survivors keep their order. */
  lemma {:induction false} WithoutIdAppend(a: seq<Notice>, b: seq<Notice>, id: string)
    ensures WithoutId(a + b, id) == WithoutId(a, id) + WithoutId(b, id)
  {
    if b == [] {
      assert a + b == a;
    } else {
      var n := |b| - 1;
      assert (a + b)[..|a| + n] == a + b[..n];
      WithoutIdAppend(a, b[..n], id);
    }
  }

  /** Deleting an id no notice has changes nothing. */
  lemma {:induction false} WithoutAbsentId(s: seq<Notice>, id: string)
    requires forall i :: 0 <= i < |s| ==> s[i].id != id
    ensures WithoutId(s, id) == s
  {
    if s != [] {
      var n := |s| - 1;
      WithoutAbsentId(s[..n], id);
      assert s == s[..n] + [s[n]];
    }
  }

  class NoticesState {
    var items: seq<Notice>
    var selectedId: Option<string>
    var isLoading: bool
    var error: Option<string>

    /** `initialState`. */
    constructor ()
      ensures items == [] && selectedId == None && !isLoading && error == None
    {
      items := [];
      selectedId := None;
      isLoading := false;
      error := None;
    }

    /** `selectNotice`. */
    method SelectNotice(id: Option<string>)
      modifies this
      ensures selectedId == id
      ensures items == old(items) && isLoading == old(isLoading) && error == old(error)
    {
      selectedId := id;
    }

    /**
     * `reorderNotices`. Equal indices change nothing. Otherwise the
     * directory's notices are moved and renumbered and put after everybody
     * else's (ReorderedProjections, ReorderedKeepsNotices). A source index
     * that names no notice of the directory makes the renumbering set a
     * position on `undefined`, which throws: `ok` is false and the state is
     * as it was.
     */
    method ReorderNotices(src: int, dst: int, dir: string) returns (ok: bool)
      modifies this
      ensures ok <==> src == dst || SpliceStart(src, |OfDirectory(old(items), dir)|) < |OfDirectory(old(items), dir)|
      ensures ok && src != dst ==> items == Reordered(old(items), src, dst, dir)
      ensures !ok || src == dst ==> items == old(items)
      ensures selectedId == old(selectedId) && isLoading == old(isLoading) && error == old(error)
    {
      var block := OfDirectory(items, dir);
      if src == dst {
        return true;
      }
      if SpliceStart(src, |block|) >= |block| {
        return false;
      }
      var moved := Moved(block, src, dst);
      var renumbered := moved;
      var k := 0;
      while k < |moved|
        invariant 0 <= k <= |moved| && |renumbered| == |moved|
        invariant forall i :: 0 <= i < k ==> renumbered[i] == moved[i].(position := i)
        invariant forall i :: k <= i < |moved| ==> renumbered[i] == moved[i]
      {
        renumbered := renumbered[k := renumbered[k].(position := k)];
        k := k + 1;
      }
      assert renumbered == Renumbered(moved);
      items := OtherDirectories(items, dir) + renumbered;
      ok := true;
    }

    /** `fetchNotices.pending`. */
    method FetchPending()
      modifies this
      ensures isLoading && error == None
      ensures items == old(items) && selectedId == old(selectedId)
    {
      isLoading := true;
      error := None;
    }

    /** `fetchNotices.fulfilled`: the payload stably sorted by position. */
    method FetchFulfilled(payload: seq<Notice>)
      modifies this
      ensures !isLoading && items == SortByPosition(payload)
      ensures SortedByPosition(items) && multiset(items) == multiset(payload)
      ensures selectedId == old(selectedId) && error == old(error)
    {
      SortByPositionIsStableSort(payload);
      isLoading := false;
      items := SortByPosition(payload);
    }

    /** `fetchNotices.rejected`: the error's message, or the default one when it has none. */
    method FetchRejected(message: Option<string>)
      modifies this
      ensures !isLoading && error == Some(MessageOr(message, FetchFailed))
      ensures items == old(items) && selectedId == old(selectedId)
    {
      isLoading := false;
      error := Some(MessageOr(message, FetchFailed));
    }

    /** `createNotice.fulfilled`: the server's notice goes at the end. */
    method CreateFulfilled(created: Notice)
      modifies this
      ensures items == old(items) + [created]
      ensures selectedId == old(selectedId) && isLoading == old(isLoading) && error == old(error)
    {
      items := items + [created];
    }

    /** `updateNotice.fulfilled`: the first notice with the id is replaced by the server's; an unknown id changes nothing. */
    method UpdateFulfilled(updated: Notice)
      modifies this
      ensures NoticeIndex(old(items), updated.id) == -1 ==> items == old(items)
      ensures NoticeIndex(old(items), updated.id) != -1 ==> items == old(items)[NoticeIndex(old(items), updated.id) := updated]
      ensures selectedId == old(selectedId) && isLoading == old(isLoading) && error == old(error)
    {
      var index := NoticeIndex(items, updated.id);
      if index != -1 {
        items := items[index := updated];
      }
    }

    /** `deleteNotice.fulfilled`: every notice with the id goes, and the selection is cleared exactly when it was that id. */
    method DeleteFulfilled(id: string)
      modifies this
      ensures items == WithoutId(old(items), id)
      ensures forall n :: n in items <==> n in old(items) && n.id != id
      ensures selectedId == if old(selectedId) == Some(id) then None else old(selectedId)
      ensures isLoading == old(isLoading) && error == old(error)
    {
      WithoutIdMembers(items, id);
      items := WithoutId(items, id);
      if selectedId == Some(id) {
        selectedId := None;
      }
    }
  }
}
