/**
 * The helper functions of src/store/slices/directoriesSlice.ts that work on the
 * directory forest: the pre-order lookup `findDirectoryById`, the in-place edits
 * the reducers make through the node it returns, and `removeDirectoryById`.
 *
 * The forest is a value here. An edit the source makes through the reference
 * that `findDirectoryById` returns is an edit of the first node with the id in
 * pre-order, which is the node that lookup finds.
 */
module DirectoryForest {
  import opened Wrappers
  import opened Types

  /** Every subtree of the forest, in pre-order (a node, then its children's subtrees, then its siblings). */
  function Subtrees(f: seq<Directory>): seq<Directory>
    decreases Size(f)
  {
    if f == [] then [] else [f[0]] + Subtrees(Kids(f[0])) + Subtrees(f[1..])
  }

  /** A node without its children: the fields a node carries itself. */
  function Label(d: Directory): Directory
  {
    d.(children := Absent)
  }

  /**
   * One node seen flat: the ids of its ancestors from the root down, its own
   * fields, and whether its `children` field is present.
   */
  datatype Entry = Entry(ancestors: seq<string>, node: Directory, listed: bool)

  /** The forest flattened in pre-order; `anc` are the ancestors of the forest's roots. */
  function Entries(f: seq<Directory>, anc: seq<string>): seq<Entry>
    decreases Size(f)
  {
    if f == [] then []
    else [Entry(anc, Label(f[0]), f[0].children.Present?)] + Entries(Kids(f[0]), anc + [f[0].id]) + Entries(f[1..], anc)
  }

  /** The index of the first directory with the id, or |s| when there is none. */
  function FirstIndex(s: seq<Directory>, id: string): (k: nat)
    ensures k <= |s|
    ensures forall j :: 0 <= j < k ==> s[j].id != id
    ensures k < |s| ==> s[k].id == id
  {
    if s == [] then 0 else if s[0].id == id then 0 else 1 + FirstIndex(s[1..], id)
  }

  /** `findDirectoryById`: a depth-first search that tries a node, then its children, then its siblings. */
  function FindDirectoryById(f: seq<Directory>, id: string): Option<Directory>
    decreases Size(f)
  {
    if f == [] then None
    else if f[0].id == id then Some(f[0])
    else
      match FindDirectoryById(Kids(f[0]), id)
      case Some(found) => Some(found)
      case None => FindDirectoryById(f[1..], id)
  }

  /** The in-place changes the reducers make to a node `findDirectoryById` returned. */
  datatype Edit =
    | Toggle                        // directory.expanded = !directory.expanded
    | Rename(name: string)          // directory.name = name
    | AppendChild(child: Directory) // parent.children ||= []; parent.children.push(child)

  function ApplyEdit(d: Directory, e: Edit): Directory
  {
    match e
    case Toggle => d.(expanded := Some(!IsExpanded(d)))
    case Rename(n) => d.(name := n)
    case AppendChild(c) => d.(children := Present(Kids(d) + [c]))
  }

  /** An edit that changes the node's own fields and not its children. */
  predicate FieldEdit(e: Edit)
  {
    e.Toggle? || e.Rename?
  }

  /** Apply the edit to the node `FindDirectoryById(f, id)` finds; no change when there is none. */
  function EditFirst(f: seq<Directory>, id: string, e: Edit): seq<Directory>
    decreases Size(f)
  {
    if f == [] then []
    else if f[0].id == id then [ApplyEdit(f[0], e)] + f[1..]
    else if FindDirectoryById(Kids(f[0]), id).Some? then [f[0].(children := Present(EditFirst(Kids(f[0]), id, e)))] + f[1..]
    else [f[0]] + EditFirst(f[1..], id, e)
  }

  /** `removeDirectoryById`: drop every node with the id, together with its subtree, at every level. */
  function RemoveDirectoryById(f: seq<Directory>, id: string): seq<Directory>
    decreases Size(f)
  {
    if f == [] then []
    else if f[0].id == id then RemoveDirectoryById(f[1..], id)
    else
      var d := f[0];
      var kept := if d.children.Present? then d.(children := Present(RemoveDirectoryById(d.children.nodes, id))) else d;
      [kept] + RemoveDirectoryById(f[1..], id)
  }

  /** The entries of nodes that neither have the id nor lie below a node that has it. */
  function Keep(es: seq<Entry>, id: string): seq<Entry>
  {
    if es == [] then []
    else if es[0].node.id == id || id in es[0].ancestors then Keep(es[1..], id)
    else [es[0]] + Keep(es[1..], id)
  }

  /** Whether some entry is a node with the id. */
  predicate Lists(es: seq<Entry>, id: string)
  {
    es != [] && (es[0].node.id == id || Lists(es[1..], id))
  }

  /** What an edit does to the entry of the node it is applied to. */
  function Touch(x: Entry, e: Edit): Entry
  {
    match e
    case AppendChild(_) => x.(listed := true)
    case _ => x.(node := ApplyEdit(x.node, e))
  }

  /** The entries with the first one whose node has the id touched by the edit, and every other one as it was. */
  function TouchFirst(es: seq<Entry>, id: string, e: Edit): seq<Entry>
  {
    if es == [] then []
    else if es[0].node.id == id then [Touch(es[0], e)] + es[1..]
    else [es[0]] + TouchFirst(es[1..], id, e)
  }

  // ---------------------------------------------------------------------------
  // Flattening laws

  lemma {:induction false} SubtreesAppend(a: seq<Directory>, b: seq<Directory>)
    ensures Subtrees(a + b) == Subtrees(a) + Subtrees(b)
  {
    if a == [] {
      assert a + b == b;
    } else {
      assert (a + b)[0] == a[0];
      assert (a + b)[1..] == a[1..] + b;
      SubtreesAppend(a[1..], b);
    }
  }

  lemma {:induction false} EntriesAppend(a: seq<Directory>, b: seq<Directory>, anc: seq<string>)
    ensures Entries(a + b, anc) == Entries(a, anc) + Entries(b, anc)
  {
    if a == [] {
      assert a + b == b;
    } else {
      assert (a + b)[0] == a[0];
      assert (a + b)[1..] == a[1..] + b;
      EntriesAppend(a[1..], b, anc);
    }
  }

  /** One unfolding of Subtrees at a non-empty forest. */
  lemma {:induction false} SubtreesCons(f: seq<Directory>)
    requires f != []
    ensures Subtrees(f) == [f[0]] + Subtrees(Kids(f[0])) + Subtrees(f[1..])
  {
  }

  /** One unfolding of Entries at a non-empty forest. */
  lemma {:induction false} EntriesCons(f: seq<Directory>, anc: seq<string>)
    requires f != []
    ensures Entries(f, anc) == [Entry(anc, Label(f[0]), f[0].children.Present?)] + Entries(Kids(f[0]), anc + [f[0].id]) + Entries(f[1..], anc)
  {
  }

  /** Entries and subtrees list the same nodes in the same order. */
  lemma {:induction false} EntriesAlign(f: seq<Directory>, anc: seq<string>)
    decreases Size(f)
    ensures |Entries(f, anc)| == |Subtrees(f)|
    ensures forall i :: 0 <= i < |Subtrees(f)| ==> Entries(f, anc)[i].node == Label(Subtrees(f)[i])
    ensures forall i :: 0 <= i < |Subtrees(f)| ==> Entries(f, anc)[i].listed == Subtrees(f)[i].children.Present?
  {
    if f != [] {
      EntriesAlign(Kids(f[0]), anc + [f[0].id]);
      EntriesAlign(f[1..], anc);
    }
  }


  lemma {:induction false} FirstIndexAppend(a: seq<Directory>, b: seq<Directory>, id: string)
    ensures FirstIndex(a + b, id) == if FirstIndex(a, id) < |a| then FirstIndex(a, id) else |a| + FirstIndex(b, id)
  {
    if a == [] {
      assert a + b == b;
    } else {
      assert (a + b)[1..] == a[1..] + b;
      if a[0].id != id {
        FirstIndexAppend(a[1..], b, id);
      }
    }
  }

  lemma {:induction false} KeepAppend(a: seq<Entry>, b: seq<Entry>, id: string)
    ensures Keep(a + b, id) == Keep(a, id) + Keep(b, id)
  {
    if a == [] {
      assert a + b == b;
    } else {
      assert (a + b)[1..] == a[1..] + b;
      KeepAppend(a[1..], b, id);
    }
  }


  lemma {:induction false} KeepSound(es: seq<Entry>, id: string)
    ensures forall e :: e in Keep(es, id) ==> e in es && e.node.id != id && id !in e.ancestors
  {
    if es != [] {
      KeepSound(es[1..], id);
    }
  }

  lemma {:induction false} TouchFirstAppend(a: seq<Entry>, b: seq<Entry>, id: string, e: Edit)
    ensures Lists(a, id) ==> TouchFirst(a + b, id, e) == TouchFirst(a, id, e) + b
    ensures !Lists(a, id) ==> TouchFirst(a + b, id, e) == a + TouchFirst(b, id, e)
  {
    if a == [] {
      assert a + b == b;
    } else {
      var h, t := a[0], a[1..];
      assert a + b == [h] + (t + b);
      assert a == [h] + t;
      if h.node.id == id {
        assert TouchFirst(a + b, id, e) == [Touch(h, e)] + (t + b);
      } else {
        TouchFirstAppend(t, b, id, e);
        assert TouchFirst(a + b, id, e) == [h] + TouchFirst(t + b, id, e);
      }
    }
  }

  /** Some entry is a node with the id exactly when the lookup finds one. */
  lemma {:induction false} ListsIffFound(f: seq<Directory>, anc: seq<string>, id: string)
    decreases Size(f)
    ensures Lists(Entries(f, anc), id) <==> FindDirectoryById(f, id).Some?
  {
    if f != [] {
      var d := f[0];
      var e0 := [Entry(anc, Label(d), d.children.Present?)];
      var e1 := Entries(Kids(d), anc + [d.id]);
      var e2 := Entries(f[1..], anc);
      EntriesCons(f, anc);
      ListsAppend(e0 + e1, e2, id);
      ListsAppend(e0, e1, id);
      ListsIffFound(Kids(d), anc + [d.id], id);
      ListsIffFound(f[1..], anc, id);
    }
  }

  lemma {:induction false} ListsAppend(a: seq<Entry>, b: seq<Entry>, id: string)
    ensures Lists(a + b, id) <==> Lists(a, id) || Lists(b, id)
  {
    if a == [] {
      assert a + b == b;
    } else {
      assert (a + b)[0] == a[0];
      assert (a + b)[1..] == a[1..] + b;
      ListsAppend(a[1..], b, id);
    }
  }

  // ---------------------------------------------------------------------------
  // Properties of the operations

  /**
   * `findDirectoryById` returns the first node with the id in pre-order, and
   * nothing exactly when no node of the forest has the id.
   */
  lemma {:induction false} FindIsFirstInPreorder(f: seq<Directory>, id: string)
    decreases Size(f)
    ensures var s := Subtrees(f); var k := FirstIndex(s, id);
      FindDirectoryById(f, id) == if k < |s| then Some(s[k]) else None
  {
    if f != [] && f[0].id != id {
      var s1, s2 := Subtrees(Kids(f[0])), Subtrees(f[1..]);
      FindIsFirstInPreorder(Kids(f[0]), id);
      FindIsFirstInPreorder(f[1..], id);
      FirstIndexAppend([f[0]] + s1, s2, id);
      FirstIndexAppend([f[0]], s1, id);
      assert Subtrees(f) == [f[0]] + s1 + s2;
    }
  }

  /** An edit aimed at an id no node has leaves the forest as it is. */
  lemma {:induction false} EditMissingIsNoOp(f: seq<Directory>, id: string, e: Edit)
    decreases Size(f)
    requires FindDirectoryById(f, id).None?
    ensures EditFirst(f, id, e) == f
  {
    if f != [] {
      EditMissingIsNoOp(f[1..], id, e);
    }
  }

  /** After an edit the lookup finds the edited node. */
  lemma {:induction false} FindAfterEdit(f: seq<Directory>, id: string, e: Edit)
    decreases Size(f)
    requires FindDirectoryById(f, id).Some?
    ensures FindDirectoryById(EditFirst(f, id, e), id) == Some(ApplyEdit(FindDirectoryById(f, id).value, e))
  {
    var d := f[0];
    if d.id == id {
    } else if FindDirectoryById(Kids(d), id).Some? {
      FindAfterEdit(Kids(d), id, e);
      var d' := d.(children := Present(EditFirst(Kids(d), id, e)));
      assert EditFirst(f, id, e)[0] == d';
    } else {
      FindAfterEdit(f[1..], id, e);
      assert EditFirst(f, id, e)[1..] == EditFirst(f[1..], id, e);
    }
  }

  /**
   * Toggling the same id twice restores the forest, provided the node found
   * carries an `expanded` flag: an absent flag reads as false, so two toggles
   * leave it stored as false.
   */
  lemma {:induction false} ToggleTwiceRestores(f: seq<Directory>, id: string)
    decreases Size(f)
    requires FindDirectoryById(f, id).Some? ==> FindDirectoryById(f, id).value.expanded.Some?
    ensures EditFirst(EditFirst(f, id, Toggle), id, Toggle) == f
  {
    if f != [] {
      var d := f[0];
      if d.id == id {
        assert FindDirectoryById(f, id) == Some(d);
        assert d.expanded.Some?;
        var d1 := ApplyEdit(d, Toggle);
        assert IsExpanded(d1) == !IsExpanded(d);
        if d.expanded.value {
          assert d.expanded == Some(true);
        } else {
          assert d.expanded == Some(false);
        }
      } else if FindDirectoryById(Kids(d), id).Some? {
        var d1 := d.(children := Present(EditFirst(Kids(d), id, Toggle)));
        assert EditFirst(f, id, Toggle) == [d1] + f[1..];
        FindAfterEdit(Kids(d), id, Toggle);
        ToggleTwiceRestores(Kids(d), id);
        assert ([d1] + f[1..])[1..] == f[1..];
        assert d.children.Present?;
        assert d1.(children := Present(EditFirst(Kids(d1), id, Toggle))) == d;
      } else {
        ToggleTwiceRestores(f[1..], id);
        assert ([d] + EditFirst(f[1..], id, Toggle))[1..] == EditFirst(f[1..], id, Toggle);
      }
    }
  }

  /**
   * A toggle or a rename changes the flattened forest in one place only: the
   * entry of the first node with the id gets the edit applied to its fields,
   * and every other node, the nesting and every ancestor chain stay as they were.
   */
  lemma {:induction false} FieldEditTouchesFirst(f: seq<Directory>, anc: seq<string>, id: string, e: Edit)
    decreases Size(f)
    requires FieldEdit(e)
    ensures Entries(EditFirst(f, id, e), anc) == TouchFirst(Entries(f, anc), id, e)
  {
    if f != [] {
      var d := f[0];
      var e0 := [Entry(anc, Label(d), d.children.Present?)];
      var e1 := Entries(Kids(d), anc + [d.id]);
      var e2 := Entries(f[1..], anc);
      EntriesCons(f, anc);
      TouchFirstAppend(e0 + e1, e2, id, e);
      TouchFirstAppend(e0, e1, id, e);
      ListsIffFound(Kids(d), anc + [d.id], id);
      if d.id == id {
        FieldEditAtRoot(f, anc, id, e);
      } else if FindDirectoryById(Kids(d), id).Some? {
        FieldEditTouchesFirst(Kids(d), anc + [d.id], id, e);
        EditBelowRoot(f, anc, id, e);
      } else {
        FieldEditTouchesFirst(f[1..], anc, id, e);
        EditAfterRoot(f, anc, id, e);
      }
    }
  }

  /** The case of FieldEditTouchesFirst where the first root has the id. */
  lemma {:induction false} FieldEditAtRoot(f: seq<Directory>, anc: seq<string>, id: string, e: Edit)
    requires FieldEdit(e) && f != [] && f[0].id == id
    ensures Entries(EditFirst(f, id, e), anc)
      == [Touch(Entry(anc, Label(f[0]), f[0].children.Present?), e)] + Entries(Kids(f[0]), anc + [id]) + Entries(f[1..], anc)
  {
    var d' := ApplyEdit(f[0], e);
    assert Label(d') == ApplyEdit(Label(f[0]), e);
    EntriesCons([d'] + f[1..], anc);
    assert ([d'] + f[1..])[1..] == f[1..];
  }

  /** The entries after an edit whose node lies below the first root. */
  lemma {:induction false} EditBelowRoot(f: seq<Directory>, anc: seq<string>, id: string, e: Edit)
    requires f != [] && f[0].id != id && FindDirectoryById(Kids(f[0]), id).Some?
    ensures Entries(EditFirst(f, id, e), anc)
      == [Entry(anc, Label(f[0]), f[0].children.Present?)] + Entries(EditFirst(Kids(f[0]), id, e), anc + [f[0].id]) + Entries(f[1..], anc)
  {
    var d' := f[0].(children := Present(EditFirst(Kids(f[0]), id, e)));
    EntriesCons([d'] + f[1..], anc);
    assert ([d'] + f[1..])[1..] == f[1..];
    assert Label(d') == Label(f[0]);
  }

  /** The entries after an edit whose node lies after the first root's subtree. */
  lemma {:induction false} EditAfterRoot(f: seq<Directory>, anc: seq<string>, id: string, e: Edit)
    requires f != [] && f[0].id != id && FindDirectoryById(Kids(f[0]), id).None?
    ensures Entries(EditFirst(f, id, e), anc)
      == [Entry(anc, Label(f[0]), f[0].children.Present?)] + Entries(Kids(f[0]), anc + [f[0].id]) + Entries(EditFirst(f[1..], id, e), anc)
  {
    EntriesCons([f[0]] + EditFirst(f[1..], id, e), anc);
    assert ([f[0]] + EditFirst(f[1..], id, e))[1..] == EditFirst(f[1..], id, e);
  }

  /**
   * Creating a child `c` under the parent `pid` adds the new child's subtree and
   * nothing else: with the child's entries taken away again, the flattened
   * forest is the old one with the parent (the first node with `pid`) now
   * holding a children list. Where the child goes among the parent's children
   * is FindAfterEdit's statement.
   */
  lemma {:induction false} AppendChildAddsOnlyTheChild(f: seq<Directory>, anc: seq<string>, pid: string, c: Directory)
    decreases Size(f)
    requires c.id !in anc && FindDirectoryById(f, c.id).None?
    ensures Keep(Entries(EditFirst(f, pid, AppendChild(c)), anc), c.id) == TouchFirst(Entries(f, anc), pid, AppendChild(c))
  {
    var e := AppendChild(c);
    if f == [] {
    } else {
      var d := f[0];
      var e0 := [Entry(anc, Label(d), d.children.Present?)];
      var e1 := Entries(Kids(d), anc + [d.id]);
      var e2 := Entries(f[1..], anc);
      EntriesCons(f, anc);
      TouchFirstAppend(e0 + e1, e2, pid, e);
      TouchFirstAppend(e0, e1, pid, e);
      ListsIffFound(Kids(d), anc + [d.id], pid);
      if d.id == pid {
        AppendAtRoot(f, anc, pid, c);
      } else if FindDirectoryById(Kids(d), pid).Some? {
        AppendChildAddsOnlyTheChild(Kids(d), anc + [d.id], pid, c);
        EditBelowRoot(f, anc, pid, e);
        KeepThree(e0, Entries(EditFirst(Kids(d), pid, e), anc + [d.id]), e2, c.id);
        KeepFresh(f[1..], anc, c.id);
      } else {
        AppendChildAddsOnlyTheChild(f[1..], anc, pid, c);
        EditAfterRoot(f, anc, pid, e);
        KeepThree(e0, e1, Entries(EditFirst(f[1..], pid, e), anc), c.id);
        KeepFresh(Kids(d), anc + [d.id], c.id);
      }
    }
  }

  /** The case of AppendChildAddsOnlyTheChild where the first root is the parent. */
  lemma {:induction false} AppendAtRoot(f: seq<Directory>, anc: seq<string>, pid: string, c: Directory)
    requires f != [] && f[0].id == pid
    requires c.id !in anc && FindDirectoryById(f, c.id).None?
    ensures Keep(Entries(EditFirst(f, pid, AppendChild(c)), anc), c.id)
      == [Entry(anc, Label(f[0]), true)] + Entries(Kids(f[0]), anc + [pid]) + Entries(f[1..], anc)
  {
    var e1 := Entries(Kids(f[0]), anc + [pid]);
    var ec := Entries([c], anc + [pid]);
    AppendAtRootEntries(f, anc, pid, c);
    KeepThree([Entry(anc, Label(f[0]), true)], e1 + ec, Entries(f[1..], anc), c.id);
    KeepAppend(e1, ec, c.id);
    KeepFresh(Kids(f[0]), anc + [pid], c.id);
    KeepFresh(f[1..], anc, c.id);
    KeepDropsSubtree(c, anc + [pid]);
  }

  /** The entries after the first root gets a new last child. */
  lemma {:induction false} AppendAtRootEntries(f: seq<Directory>, anc: seq<string>, pid: string, c: Directory)
    requires f != [] && f[0].id == pid
    ensures Entries(EditFirst(f, pid, AppendChild(c)), anc)
      == [Entry(anc, Label(f[0]), true)] + (Entries(Kids(f[0]), anc + [pid]) + Entries([c], anc + [pid])) + Entries(f[1..], anc)
  {
    var d' := ApplyEdit(f[0], AppendChild(c));
    EntriesCons([d'] + f[1..], anc);
    assert ([d'] + f[1..])[1..] == f[1..];
    assert Label(d') == Label(f[0]);
    EntriesAppend(Kids(f[0]), [c], anc + [pid]);
  }


  /** Keep over three parts whose first part is a single entry that is kept. */
  lemma {:induction false} KeepThree(a: seq<Entry>, b: seq<Entry>, z: seq<Entry>, id: string)
    requires |a| == 1 && a[0].node.id != id && id !in a[0].ancestors
    ensures Keep(a + b + z, id) == a + Keep(b, id) + Keep(z, id)
  {
    KeepAppend(a + b, z, id);
    KeepAppend(a, b, id);
  }

  /** Taking away an id that neither the ancestors nor any node has keeps every entry. */
  lemma {:induction false} KeepFresh(f: seq<Directory>, anc: seq<string>, id: string)
    decreases Size(f)
    requires id !in anc && FindDirectoryById(f, id).None?
    ensures Keep(Entries(f, anc), id) == Entries(f, anc)
  {
    if f != [] {
      var d := f[0];
      EntriesCons(f, anc);
      KeepThree([Entry(anc, Label(d), d.children.Present?)], Entries(Kids(d), anc + [d.id]), Entries(f[1..], anc), id);
      KeepFresh(Kids(d), anc + [d.id], id);
      KeepFresh(f[1..], anc, id);
    }
  }

  /** Taking away a node's id takes away its whole subtree. */
  lemma {:induction false} KeepDropsSubtree(c: Directory, anc: seq<string>)
    ensures Keep(Entries([c], anc), c.id) == []
  {
    var x := Entry(anc, Label(c), c.children.Present?);
    EntriesCons([c], anc);
    assert [c][1..] == [];
    assert Entries([c], anc) == [x] + Entries(Kids(c), anc + [c.id]);
    KeepAppend([x], Entries(Kids(c), anc + [c.id]), c.id);
    KeepBelow(Kids(c), anc + [c.id], c.id);
    assert Keep([x], c.id) == Keep([x][1..], c.id);
  }

  /** Taking away an id among the ancestors of a forest's roots takes away the whole forest. */
  lemma {:induction false} KeepBelow(f: seq<Directory>, anc: seq<string>, id: string)
    decreases Size(f)
    requires id in anc
    ensures Keep(Entries(f, anc), id) == []
  {
    if f != [] {
      var x := Entry(anc, Label(f[0]), f[0].children.Present?);
      EntriesCons(f, anc);
      KeepAppend([x] + Entries(Kids(f[0]), anc + [f[0].id]), Entries(f[1..], anc), id);
      KeepAppend([x], Entries(Kids(f[0]), anc + [f[0].id]), id);
      KeepBelow(Kids(f[0]), anc + [f[0].id], id);
      KeepBelow(f[1..], anc, id);
      assert Keep([x], id) == Keep([x][1..], id);
    }
  }

  /**
   * Removing an id keeps exactly the nodes that neither have the id nor lie
   * below a node with it, in their old pre-order and with their old ancestor
   * chains (so their nesting is kept too).
   */
  lemma {:induction false} RemoveKeepsTheRest(f: seq<Directory>, anc: seq<string>, id: string)
    decreases Size(f)
    requires id !in anc
    ensures Entries(RemoveDirectoryById(f, id), anc) == Keep(Entries(f, anc), id)
  {
    if f != [] {
      var d := f[0];
      var e1 := Entries(Kids(d), anc + [d.id]);
      var e2 := Entries(f[1..], anc);
      assert Entries(f, anc) == [Entry(anc, Label(d), d.children.Present?)] + e1 + e2;
      KeepAppend([Entry(anc, Label(d), d.children.Present?)] + e1, e2, id);
      KeepAppend([Entry(anc, Label(d), d.children.Present?)], e1, id);
      RemoveKeepsTheRest(f[1..], anc, id);
      if d.id == id {
        KeepBelow(Kids(d), anc + [d.id], id);
      } else {
        RemoveKeepsTheRest(Kids(d), anc + [d.id], id);
        var kept := if d.children.Present? then d.(children := Present(RemoveDirectoryById(d.children.nodes, id))) else d;
        assert Kids(kept) == RemoveDirectoryById(Kids(d), id);
        assert RemoveDirectoryById(f, id) == [kept] + RemoveDirectoryById(f[1..], id);
      }
    }
  }

  /** After removal no node has the id and no node lies below one that had it. */
  lemma {:induction false} RemoveLeavesNoTrace(f: seq<Directory>, id: string)
    ensures forall e :: e in Entries(RemoveDirectoryById(f, id), []) ==> e.node.id != id && id !in e.ancestors
    ensures FindDirectoryById(RemoveDirectoryById(f, id), id).None?
  {
    var r := RemoveDirectoryById(f, id);
    RemoveKeepsTheRest(f, [], id);
    KeepSound(Entries(f, []), id);
    EntriesAlign(r, []);
    FindIsFirstInPreorder(r, id);
    var s := Subtrees(r);
    forall i | 0 <= i < |s| ensures s[i].id != id {
      assert Entries(r, [])[i] in Entries(r, []);
    }
  }
}
