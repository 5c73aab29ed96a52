/**
 * The list surgery behind the notices reducers of
 * src/store/slices/noticesSlice.ts and the drag handler of
 * src/components/Notes/NotesGrid.tsx: the projection of the notices onto one
 * directory, JavaScript's `splice` remove-then-insert, renumbering, and the
 * stable sort by position the fetch reducer applies.
 */
module NoticeOrder {
  import opened Types

  /** `items.filter(n => n.directoryId === dir)`. */
  function OfDirectory(s: seq<Notice>, dir: string): (r: seq<Notice>)
    ensures |r| <= |s|
    ensures forall i :: 0 <= i < |r| ==> r[i].directoryId == dir
  {
    if s == [] then []
    else
      var n := |s| - 1;
      OfDirectory(s[..n], dir) + if s[n].directoryId == dir then [s[n]] else []
  }

  /** `items.filter(n => n.directoryId !== dir)`. */
  function OtherDirectories(s: seq<Notice>, dir: string): (r: seq<Notice>)
    ensures |r| <= |s|
    ensures forall i :: 0 <= i < |r| ==> r[i].directoryId != dir
  {
    if s == [] then []
    else
      var n := |s| - 1;
      OtherDirectories(s[..n], dir) + if s[n].directoryId == dir then [] else [s[n]]
  }

  /**
   * Where `splice(k, ...)` starts on an array of length `len`: a negative `k`
   * counts from the end, and the result is clamped to `0..len`.
   */
  function SpliceStart(k: int, len: nat): (r: nat)
    ensures r <= len
    ensures 0 <= k <= len ==> r == k
    ensures k < 0 && len + k >= 0 ==> r == len + k
    ensures k > len ==> r == len
    ensures len + k < 0 ==> r == 0
  {
    if k < 0 then (if len + k < 0 then 0 else len + k) else if k > len then len else k
  }

  /**
   * `const [removed] = s.splice(src, 1); s.splice(dst, 0, removed)` on a copy
   * of `s`, for a `src` that names an element.
   */
  function Moved(s: seq<Notice>, src: int, dst: int): seq<Notice>
    requires SpliceStart(src, |s|) < |s|
  {
    var i := SpliceStart(src, |s|);
    var rest := s[..i] + s[i + 1..];
    var j := SpliceStart(dst, |rest|);
    rest[..j] + [s[i]] + rest[j..]
  }

  /** `s.forEach((n, index) => { n.position = index })`. */
  function Renumbered(s: seq<Notice>): seq<Notice>
  {
    seq(|s|, i requires 0 <= i < |s| => s[i].(position := i))
  }

  /** A notice with its position forgotten: what reordering must keep. */
  function Unplaced(n: Notice): Notice
  {
    n.(position := 0)
  }

  function UnplacedAll(s: seq<Notice>): seq<Notice>
  {
    seq(|s|, i requires 0 <= i < |s| => Unplaced(s[i]))
  }

  predicate SortedByPosition(s: seq<Notice>)
  {
    forall i, j :: 0 <= i < j < |s| ==> s[i].position <= s[j].position
  }

  /** The notices with position `p`, in order. */
  function WithPosition(s: seq<Notice>, p: int): seq<Notice>
  {
    if s == [] then []
    else
      var n := |s| - 1;
      WithPosition(s[..n], p) + if s[n].position == p then [s[n]] else []
  }

  /** Insert `x` after every notice whose position is not greater than its own. */
  function InsertByPosition(t: seq<Notice>, x: Notice): seq<Notice>
  {
    if t == [] then [x]
    else
      var n := |t| - 1;
      if t[n].position <= x.position then t + [x] else InsertByPosition(t[..n], x) + [t[n]]
  }

  /** `s.sort((a, b) => a.position - b.position)`, which is stable. */
  function SortByPosition(s: seq<Notice>): seq<Notice>
  {
    if s == [] then [] else InsertByPosition(SortByPosition(s[..|s| - 1]), s[|s| - 1])
  }

  // ---------------------------------------------------------------------------
  // The projection

  /** Splitting by directory loses no notice and invents none. */
  lemma {:induction false} SplitByDirectory(s: seq<Notice>, dir: string)
    ensures multiset(OfDirectory(s, dir)) + multiset(OtherDirectories(s, dir)) == multiset(s)
    ensures |OfDirectory(s, dir)| + |OtherDirectories(s, dir)| == |s|
  {
    if s != [] {
      var n := |s| - 1;
      SplitByDirectory(s[..n], dir);
      MultisetSnoc(s);
    }
  }

  lemma MultisetSnoc<T>(s: seq<T>)
    requires s != []
    ensures multiset(s) == multiset(s[..|s| - 1]) + multiset{s[|s| - 1]}
  {
    assert s == s[..|s| - 1] + [s[|s| - 1]];
  }

  lemma {:induction false} OfDirectoryAppend(a: seq<Notice>, b: seq<Notice>, dir: string)
    ensures OfDirectory(a + b, dir) == OfDirectory(a, dir) + OfDirectory(b, dir)
    ensures OtherDirectories(a + b, dir) == OtherDirectories(a, dir) + OtherDirectories(b, dir)
  {
    if b != [] {
      var n := |b| - 1;
      assert (a + b)[..|a| + n] == a + b[..n];
      assert (a + b)[|a| + n] == b[n];
      OfDirectoryAppend(a, b[..n], dir);
    } else {
      assert a + b == a;
    }
  }

  /** A list of one directory's notices is its own projection and has no others. */
  lemma {:induction false} OfDirectoryOfOwn(s: seq<Notice>, dir: string)
    requires forall i :: 0 <= i < |s| ==> s[i].directoryId == dir
    ensures OfDirectory(s, dir) == s && OtherDirectories(s, dir) == []
  {
    if s != [] {
      var n := |s| - 1;
      OfDirectoryOfOwn(s[..n], dir);
      assert s == s[..n] + [s[n]];
    }
  }

  /** A list without the directory's notices is its own complement and has no projection. */
  lemma {:induction false} OtherDirectoriesOfOthers(s: seq<Notice>, dir: string)
    requires forall i :: 0 <= i < |s| ==> s[i].directoryId != dir
    ensures OtherDirectories(s, dir) == s && OfDirectory(s, dir) == []
  {
    if s != [] {
      var n := |s| - 1;
      OtherDirectoriesOfOthers(s[..n], dir);
      assert s == s[..n] + [s[n]];
    }
  }

  /**
   * Putting a block of one directory's notices after the other directories'
   * notices: projecting the result onto that directory gives the block, and
   * onto the rest gives the other directories' notices as they were.
   */
  lemma BlockAtTheEnd(s: seq<Notice>, block: seq<Notice>, dir: string)
    requires forall i :: 0 <= i < |block| ==> block[i].directoryId == dir
    ensures OfDirectory(OtherDirectories(s, dir) + block, dir) == block
    ensures OtherDirectories(OtherDirectories(s, dir) + block, dir) == OtherDirectories(s, dir)
  {
    OfDirectoryAppend(OtherDirectories(s, dir), block, dir);
    OtherDirectoriesOfOthers(OtherDirectories(s, dir), dir);
    OfDirectoryOfOwn(block, dir);
  }

  // ---------------------------------------------------------------------------
  // The move

  /**
   * The move takes the element at the source slot out and puts it back at
   * the destination slot of what remains; the rest keep their order and no
   * notice is lost or duplicated.
   */
  lemma MovedIsPermutation(s: seq<Notice>, src: int, dst: int)
    requires SpliceStart(src, |s|) < |s|
    ensures |Moved(s, src, dst)| == |s|
    ensures multiset(Moved(s, src, dst)) == multiset(s)
    ensures Moved(s, src, dst)[SpliceStart(dst, |s| - 1)] == s[SpliceStart(src, |s|)]
  {
    var i := SpliceStart(src, |s|);
    var rest := s[..i] + s[i + 1..];
    var j := SpliceStart(dst, |rest|);
    var m := rest[..j] + [s[i]] + rest[j..];
    assert Moved(s, src, dst) == m;
    assert s == s[..i] + [s[i]] + s[i + 1..];
    assert multiset(s) == multiset(s[..i]) + multiset{s[i]} + multiset(s[i + 1..]);
    assert multiset(rest) == multiset(s[..i]) + multiset(s[i + 1..]);
    assert rest == rest[..j] + rest[j..];
    assert multiset(rest) == multiset(rest[..j]) + multiset(rest[j..]);
    assert multiset(m) == multiset(rest[..j]) + multiset(rest[j..]) + multiset{s[i]};
    assert m[j] == s[i];
  }

  /** Moving an element to the slot it came from changes nothing. */
  lemma MovedToItsOwnSlot(s: seq<Notice>, k: int)
    requires 0 <= k < |s|
    ensures Moved(s, k, k) == s
  {
    var rest := s[..k] + s[k + 1..];
    assert rest[..k] == s[..k];
    assert rest[k..] == s[k + 1..];
  }

  /** Every element of the move is an element of the input. */
  lemma MovedKeepsDirectory(s: seq<Notice>, src: int, dst: int, dir: string)
    requires SpliceStart(src, |s|) < |s|
    requires forall i :: 0 <= i < |s| ==> s[i].directoryId == dir
    ensures forall i :: 0 <= i < |Moved(s, src, dst)| ==> Moved(s, src, dst)[i].directoryId == dir
  {
    MovedIsPermutation(s, src, dst);
    forall i | 0 <= i < |Moved(s, src, dst)| ensures Moved(s, src, dst)[i].directoryId == dir {
      assert Moved(s, src, dst)[i] in multiset(s);
    }
  }

  // ---------------------------------------------------------------------------
  // Renumbering

  /** After renumbering the positions are exactly 0..n-1 in order, and nothing else changes. */
  lemma RenumberedIsPlaced(s: seq<Notice>)
    ensures |Renumbered(s)| == |s|
    ensures forall i :: 0 <= i < |s| ==> Renumbered(s)[i].position == i
    ensures UnplacedAll(Renumbered(s)) == UnplacedAll(s)
  {
  }

  lemma UnplacedAllAppend(a: seq<Notice>, b: seq<Notice>)
    ensures UnplacedAll(a + b) == UnplacedAll(a) + UnplacedAll(b)
  {
  }

  lemma UnplacedAllSlices(s: seq<Notice>, i: nat)
    requires i <= |s|
    ensures UnplacedAll(s[..i]) == UnplacedAll(s)[..i]
    ensures UnplacedAll(s[i..]) == UnplacedAll(s)[i..]
  {
  }

  /** The element the move puts at slot `k`. */
  lemma MovedAt(s: seq<Notice>, src: int, dst: int, k: nat)
    requires SpliceStart(src, |s|) < |s| && k < |s|
    ensures
      var i, j := SpliceStart(src, |s|), SpliceStart(dst, |s| - 1);
      var r := if k < j then k else k - 1;
      Moved(s, src, dst)[k] == if k == j then s[i] else if r < i then s[r] else s[r + 1]
  {
  }

  /** Forgetting positions commutes with the move. */
  lemma UnplacedMoved(s: seq<Notice>, src: int, dst: int)
    requires SpliceStart(src, |s|) < |s|
    ensures UnplacedAll(Moved(s, src, dst)) == Moved(UnplacedAll(s), src, dst)
  {
    MovedIsPermutation(s, src, dst);
    MovedIsPermutation(UnplacedAll(s), src, dst);
    forall k | 0 <= k < |s| ensures UnplacedAll(Moved(s, src, dst))[k] == Moved(UnplacedAll(s), src, dst)[k] {
      MovedAt(s, src, dst, k);
      MovedAt(UnplacedAll(s), src, dst, k);
    }
  }

  /** Forgetting positions commutes with the projection by directory. */
  lemma {:induction false} UnplacedFilter(s: seq<Notice>, dir: string)
    ensures UnplacedAll(OfDirectory(s, dir)) == OfDirectory(UnplacedAll(s), dir)
    ensures UnplacedAll(OtherDirectories(s, dir)) == OtherDirectories(UnplacedAll(s), dir)
  {
    if s != [] {
      var n := |s| - 1;
      UnplacedFilter(s[..n], dir);
      UnplacedAllSlices(s, n);
      UnplacedAllAppend(OfDirectory(s[..n], dir), if s[n].directoryId == dir then [s[n]] else []);
      UnplacedAllAppend(OtherDirectories(s[..n], dir), if s[n].directoryId == dir then [] else [s[n]]);
    }
  }

  // ---------------------------------------------------------------------------
  // The reorder reducer's result

  /**
   * What `reorderNotices` leaves in `items` when the indices differ and the
   * source index names a notice of the directory: the other directories'
   * notices, then the directory's notices moved and renumbered.
   */
  function Reordered(items: seq<Notice>, src: int, dst: int, dir: string): seq<Notice>
    requires SpliceStart(src, |OfDirectory(items, dir)|) < |OfDirectory(items, dir)|
  {
    OtherDirectories(items, dir) + Renumbered(Moved(OfDirectory(items, dir), src, dst))
  }

  /**
   * The directory's notices, read back from the result, are the moved block
   * numbered 0..n-1 with the dragged notice at the destination slot; the other
   * directories' notices are read back unchanged.
   */
  lemma ReorderedProjections(items: seq<Notice>, src: int, dst: int, dir: string)
    requires SpliceStart(src, |OfDirectory(items, dir)|) < |OfDirectory(items, dir)|
    ensures OfDirectory(Reordered(items, src, dst, dir), dir) == Renumbered(Moved(OfDirectory(items, dir), src, dst))
    ensures OtherDirectories(Reordered(items, src, dst, dir), dir) == OtherDirectories(items, dir)
    ensures forall i :: 0 <= i < |OfDirectory(items, dir)| ==> OfDirectory(Reordered(items, src, dst, dir), dir)[i].position == i
    ensures |OfDirectory(Reordered(items, src, dst, dir), dir)| == |OfDirectory(items, dir)|
    ensures
      var k := |OfDirectory(items, dir)|;
      var i, j := SpliceStart(src, k), SpliceStart(dst, k - 1);
      OfDirectory(Reordered(items, src, dst, dir), dir)[j] == OfDirectory(items, dir)[i].(position := j)
  {
    var block := OfDirectory(items, dir);
    MovedIsPermutation(block, src, dst);
    MovedKeepsDirectory(block, src, dst, dir);
    BlockAtTheEnd(items, Renumbered(Moved(block, src, dst)), dir);
  }

  /** Reordering loses no notice, invents none, and changes nothing but positions. */
  lemma ReorderedKeepsNotices(items: seq<Notice>, src: int, dst: int, dir: string)
    requires SpliceStart(src, |OfDirectory(items, dir)|) < |OfDirectory(items, dir)|
    ensures |Reordered(items, src, dst, dir)| == |items|
    ensures multiset(UnplacedAll(Reordered(items, src, dst, dir))) == multiset(UnplacedAll(items))
  {
    var block := OfDirectory(items, dir);
    var others := OtherDirectories(items, dir);
    var m := Moved(block, src, dst);
    SplitByDirectory(items, dir);
    MovedIsPermutation(block, src, dst);
    RenumberedIsPlaced(m);
    UnplacedAllAppend(others, Renumbered(m));
    UnplacedMoved(block, src, dst);
    MovedIsPermutation(UnplacedAll(block), src, dst);
    UnplacedFilter(items, dir);
    SplitByDirectory(UnplacedAll(items), dir);
  }

  // ---------------------------------------------------------------------------
  // Sorting

  predicate AllAtMost(s: seq<Notice>, p: int)
  {
    forall i :: 0 <= i < |s| ==> s[i].position <= p
  }

  lemma {:induction false} InsertKeepsBound(t: seq<Notice>, x: Notice, p: int)
    requires AllAtMost(t, p) && x.position <= p
    ensures AllAtMost(InsertByPosition(t, x), p)
  {
    if t != [] {
      var n := |t| - 1;
      if t[n].position > x.position {
        InsertKeepsBound(t[..n], x, p);
      }
    }
  }

  /** Inserting keeps sortedness and adds exactly `x`. */
  lemma {:induction false} InsertKeepsSorted(t: seq<Notice>, x: Notice)
    requires SortedByPosition(t)
    ensures SortedByPosition(InsertByPosition(t, x))
  {
    if t != [] {
      var n := |t| - 1;
      if t[n].position > x.position {
        assert SortedByPosition(t[..n]);
        InsertKeepsSorted(t[..n], x);
        assert AllAtMost(t[..n], t[n].position);
        InsertKeepsBound(t[..n], x, t[n].position);
      }
    }
  }

  lemma {:induction false} InsertAddsOne(t: seq<Notice>, x: Notice)
    ensures multiset(InsertByPosition(t, x)) == multiset(t) + multiset{x}
    ensures |InsertByPosition(t, x)| == |t| + 1
  {
    if t != [] {
      var n := |t| - 1;
      assert t == t[..n] + [t[n]];
      if t[n].position > x.position {
        InsertAddsOne(t[..n], x);
      }
    }
  }

  /** Inserting adds `x` at the end of the notices with its position and keeps the others' order. */
  lemma {:induction false} InsertIsStable(t: seq<Notice>, x: Notice, p: int)
    ensures WithPosition(InsertByPosition(t, x), p) == WithPosition(t, p) + if x.position == p then [x] else []
  {
    if t == [] {
      assert WithPosition([x], p) == WithPosition([], p) + if x.position == p then [x] else [];
    } else {
      var n := |t| - 1;
      if t[n].position <= x.position {
        var r := t + [x];
        assert r[..|t|] == t;
      } else {
        var u := InsertByPosition(t[..n], x);
        InsertIsStable(t[..n], x, p);
        var r := u + [t[n]];
        assert r[..|u|] == u;
      }
    }
  }

  lemma {:induction false} SortIsSorted(s: seq<Notice>)
    ensures SortedByPosition(SortByPosition(s))
  {
    if s != [] {
      SortIsSorted(s[..|s| - 1]);
      InsertKeepsSorted(SortByPosition(s[..|s| - 1]), s[|s| - 1]);
    }
  }

  lemma {:induction false} SortIsPermutation(s: seq<Notice>)
    ensures multiset(SortByPosition(s)) == multiset(s)
  {
    if s != [] {
      SortIsPermutation(s[..|s| - 1]);
      InsertAddsOne(SortByPosition(s[..|s| - 1]), s[|s| - 1]);
      MultisetSnoc(s);
    }
  }

  lemma {:induction false} SortIsStable(s: seq<Notice>, p: int)
    ensures WithPosition(SortByPosition(s), p) == WithPosition(s, p)
  {
    if s != [] {
      SortIsStable(s[..|s| - 1], p);
      InsertIsStable(SortByPosition(s[..|s| - 1]), s[|s| - 1], p);
    }
  }

  /**
   * `fetchNotices.fulfilled`'s sort: the result is ordered by position, holds
   * the same notices, and notices with equal positions keep their input order.
   */
  lemma SortByPositionIsStableSort(s: seq<Notice>)
    ensures SortedByPosition(SortByPosition(s))
    ensures multiset(SortByPosition(s)) == multiset(s)
    ensures forall p :: WithPosition(SortByPosition(s), p) == WithPosition(s, p)
  {
    SortIsSorted(s);
    SortIsPermutation(s);
    forall p ensures WithPosition(SortByPosition(s), p) == WithPosition(s, p) {
      SortIsStable(s, p);
    }
  }
}
