/**
 * `buildDirectoryTree` of src/store/slices/directoriesSlice.ts: the flat list
 * the backend sends becomes a forest.
 *
 * The source fills a `Map` from id to a fresh copy of each record in a first
 * loop, then pushes each record's copy into its parent's `children` array, or
 * into `roots`, in a second loop. The copies are shared objects, so the arrays
 * the second loop fills are the children of the nodes in `roots`. Here the
 * copies live in `nodes`, each children array is the list of child ids in
 * `kids`, and `Assemble` links them into a forest value once the loops are done.
 */
module DirectoryBuild {
  import opened Wrappers
  import opened Types
  import opened DirectoryForest

  /** The copy the first loop stores: an empty children list and `expanded || false`. */
  function Normalise(d: Directory): Directory
  {
    d.(children := Present([]), expanded := Some(IsExpanded(d)))
  }

  /** `map` after the first loop: each id maps to the copy of the last record with that id. */
  function NodeMap(ds: seq<Directory>): map<string, Directory>
  {
    if ds == [] then map[] else NodeMap(ds[..|ds| - 1])[ds[|ds| - 1].id := Normalise(ds[|ds| - 1])]
  }

  /** `dir.parentId && map.has(dir.parentId)`: the record has a parent among the fetched ids. */
  predicate HasLiveParent(d: Directory, nodes: map<string, Directory>)
  {
    Truthy(d.parentId) && d.parentId.value in nodes
  }

  /** The ids of the records whose live parent is `pid`, in input order. */
  function ChildIds(ds: seq<Directory>, nodes: map<string, Directory>, pid: string): seq<string>
  {
    if ds == [] then []
    else
      var d := ds[|ds| - 1];
      ChildIds(ds[..|ds| - 1], nodes, pid) + if HasLiveParent(d, nodes) && d.parentId.value == pid then [d.id] else []
  }

  /** The ids of the records without a live parent, in input order. */
  function RootIds(ds: seq<Directory>, nodes: map<string, Directory>): seq<string>
  {
    if ds == [] then []
    else
      var d := ds[|ds| - 1];
      RootIds(ds[..|ds| - 1], nodes) + if HasLiveParent(d, nodes) then [] else [d.id]
  }

  /** The children arrays after the second loop, one per stored id. */
  function ChildMap(ds: seq<Directory>, nodes: map<string, Directory>): map<string, seq<string>>
  {
    map x | x in nodes :: ChildIds(ds, nodes, x)
  }

  function Lookup(kids: map<string, seq<string>>, x: string): seq<string>
  {
    if x in kids then kids[x] else []
  }

  /**
   * The forest the shared copies form, read from the ids `ids`: each stored
   * id becomes its copy with its children linked in. An id already on the way
   * down from the roots (`path`) is not entered again; with distinct ids no
   * such id is ever met, because every record then has one parent and a
   * record reached from a root lies on no cycle of parent links.
   */
  function Assemble(nodes: map<string, Directory>, kids: map<string, seq<string>>, ids: seq<string>, path: set<string>): seq<Directory>
    decreases |nodes.Keys - path|, |ids|
  {
    if ids == [] then []
    else
      var x := ids[0];
      var rest := Assemble(nodes, kids, ids[1..], path);
      if x in nodes && x !in path then
        assert nodes.Keys - path == (nodes.Keys - (path + {x})) + {x};
        [nodes[x].(children := Present(Assemble(nodes, kids, Lookup(kids, x), path + {x})))] + rest
      else rest
  }

  /** What `buildDirectoryTree(ds)` returns. */
  function Build(ds: seq<Directory>): seq<Directory>
  {
    var nodes := NodeMap(ds);
    Assemble(nodes, ChildMap(ds, nodes), RootIds(ds, nodes), {})
  }

  /** The two loops of `buildDirectoryTree`. */
  method BuildDirectoryTree(ds: seq<Directory>) returns (roots: seq<Directory>)
    ensures roots == Build(ds)
  {
    var nodes: map<string, Directory> := map[];
    var kids: map<string, seq<string>> := map[];
    var i := 0;
    while i < |ds|
      invariant 0 <= i <= |ds|
      invariant nodes == NodeMap(ds[..i])
      invariant kids.Keys == nodes.Keys
      invariant forall x :: x in kids ==> kids[x] == []
    {
      assert ds[..i + 1][..i] == ds[..i];
      nodes := nodes[ds[i].id := Normalise(ds[i])];
      kids := kids[ds[i].id := []];
      i := i + 1;
    }
    assert ds[..i] == ds;
    var rootIds: seq<string> := [];
    i := 0;
    while i < |ds|
      invariant 0 <= i <= |ds|
      invariant kids.Keys == nodes.Keys
      invariant forall x :: x in kids ==> kids[x] == ChildIds(ds[..i], nodes, x)
      invariant rootIds == RootIds(ds[..i], nodes)
    {
      var d := ds[i];
      SecondLoopStep(ds, nodes, i);
      if HasLiveParent(d, nodes) {
        var pid := d.parentId.value;
        kids := kids[pid := kids[pid] + [d.id]];
      } else {
        rootIds := rootIds + [d.id];
      }
      i := i + 1;
    }
    assert ds[..i] == ds;
    ChildListsAreChildMap(ds, nodes, kids);
    roots := Assemble(nodes, kids, rootIds, {});
  }

  lemma ChildListsAreChildMap(ds: seq<Directory>, nodes: map<string, Directory>, kids: map<string, seq<string>>)
    requires kids.Keys == nodes.Keys
    requires forall x :: x in kids ==> kids[x] == ChildIds(ds, nodes, x)
    ensures kids == ChildMap(ds, nodes)
  {
  }

  /** What the second loop's step at record `i` adds to the children lists and the roots. */
  lemma SecondLoopStep(ds: seq<Directory>, nodes: map<string, Directory>, i: nat)
    requires i < |ds|
    ensures forall x ::
      ChildIds(ds[..i + 1], nodes, x) == ChildIds(ds[..i], nodes, x) + (if HasLiveParent(ds[i], nodes) && ds[i].parentId.value == x then [ds[i].id] else [])
    ensures RootIds(ds[..i + 1], nodes) == RootIds(ds[..i], nodes) + (if HasLiveParent(ds[i], nodes) then [] else [ds[i].id])
  {
    assert ds[..i + 1][..i] == ds[..i];
  }

  // ---------------------------------------------------------------------------
  // Properties

  /** The ids of a list of directories, in order. */
  function IdsOf(f: seq<Directory>): seq<string>
  {
    seq(|f|, i requires 0 <= i < |f| => f[i].id)
  }

  lemma IdsOfAppend(a: seq<Directory>, b: seq<Directory>)
    ensures IdsOf(a + b) == IdsOf(a) + IdsOf(b)
  {
    assert forall i :: 0 <= i < |a| + |b| ==> IdsOf(a + b)[i] == (IdsOf(a) + IdsOf(b))[i];
  }

  /** The first loop stores each copy under its own id. */
  lemma {:induction false} StoredUnderOwnId(ds: seq<Directory>)
    ensures forall x :: x in NodeMap(ds) ==> NodeMap(ds)[x].id == x
  {
    if ds != [] {
      StoredUnderOwnId(ds[..|ds| - 1]);
    }
  }

  /** The first loop stores a copy for the id of every record. */
  lemma {:induction false} EveryRecordIsStored(ds: seq<Directory>, j: nat)
    requires j < |ds|
    ensures ds[j].id in NodeMap(ds)
  {
    var n := |ds| - 1;
    if j < n {
      assert ds[..n][j] == ds[j];
      EveryRecordIsStored(ds[..n], j);
    }
  }

  /**
   * The copy stored for the id of a record that no later record shares is
   * that record's: an empty children list and `expanded` as the input had it
   * or false.
   */
  lemma {:induction false} LastRecordIsStored(ds: seq<Directory>, j: nat)
    requires j < |ds| && forall k :: j < k < |ds| ==> ds[k].id != ds[j].id
    ensures ds[j].id in NodeMap(ds) && NodeMap(ds)[ds[j].id] == Normalise(ds[j])
  {
    var n := |ds| - 1;
    if j < n {
      assert ds[..n][j] == ds[j];
      assert ds[n].id != ds[j].id;
      forall k | j < k < n ensures ds[..n][k].id != ds[j].id {
        assert ds[..n][k] == ds[k];
      }
      LastRecordIsStored(ds[..n], j);
    }
  }

  /** Every stored id is the id of a record, and of a last one with it. */
  lemma {:induction false} StoredIsLastRecord(ds: seq<Directory>, x: string) returns (j: nat)
    requires x in NodeMap(ds)
    ensures j < |ds| && ds[j].id == x && forall k :: j < k < |ds| ==> ds[k].id != x
  {
    var n := |ds| - 1;
    if ds[n].id == x {
      j := n;
    } else {
      j := StoredIsLastRecord(ds[..n], x);
      assert ds[..n][j] == ds[j];
      forall k | j < k < |ds| ensures ds[k].id != x {
        if k < n {
          assert ds[..n][k] == ds[k];
        }
      }
    }
  }

  /** A normalised copy reads `expanded` as the record did, and stores it. */
  lemma NormaliseKeepsFields(d: Directory)
    ensures Label(Normalise(d)) == d.(children := Absent, expanded := Some(IsExpanded(d)))
    ensures IsExpanded(Normalise(d)) == IsExpanded(d)
    ensures Normalise(d).expanded.Some?
  {
  }

  /** One unfolding of Assemble at a stored id off the path. */
  lemma AssembleCons(nodes: map<string, Directory>, kids: map<string, seq<string>>, ids: seq<string>, path: set<string>)
    requires ids != [] && ids[0] in nodes && ids[0] !in path
    ensures Assemble(nodes, kids, ids, path)
      == [nodes[ids[0]].(children := Present(Assemble(nodes, kids, Lookup(kids, ids[0]), path + {ids[0]})))] + Assemble(nodes, kids, ids[1..], path)
  {
  }

  /** Every node of an assembled forest is a stored copy, with a children list. */
  lemma {:induction false} AssembledNodesAreCopies(nodes: map<string, Directory>, kids: map<string, seq<string>>, ids: seq<string>, path: set<string>)
    decreases |nodes.Keys - path|, |ids|
    requires forall x :: x in nodes ==> nodes[x].id == x
    ensures forall n :: n in Subtrees(Assemble(nodes, kids, ids, path)) ==>
      n.id in nodes && Label(n) == Label(nodes[n.id]) && n.children.Present?
  {
    if ids != [] {
      var x := ids[0];
      var rest := Assemble(nodes, kids, ids[1..], path);
      AssembledNodesAreCopies(nodes, kids, ids[1..], path);
      if x in nodes && x !in path {
        var ks := Assemble(nodes, kids, Lookup(kids, x), path + {x});
        assert nodes.Keys - path == (nodes.Keys - (path + {x})) + {x};
        AssembledNodesAreCopies(nodes, kids, Lookup(kids, x), path + {x});
        var node := nodes[x].(children := Present(ks));
        AssembleCons(nodes, kids, ids, path);
        SubtreesCons([node] + rest);
        assert ([node] + rest)[1..] == rest;
      } else {
        assert Assemble(nodes, kids, ids, path) == rest;
      }
    }
  }

  /** The ids of `ids` that are stored and off the path, in order. */
  function Unvisited(ids: seq<string>, nodes: map<string, Directory>, path: set<string>): seq<string>
  {
    if ids == [] then []
    else (if ids[0] in nodes && ids[0] !in path then [ids[0]] else []) + Unvisited(ids[1..], nodes, path)
  }

  /**
   * Assembling below any path: one node for every id of `ids` that is stored
   * and not on the path, in the order of `ids`; nothing else is cut.
   */
  lemma {:induction false} AssembledIds(nodes: map<string, Directory>, kids: map<string, seq<string>>, ids: seq<string>, path: set<string>)
    decreases |ids|
    requires forall x :: x in nodes ==> nodes[x].id == x
    ensures IdsOf(Assemble(nodes, kids, ids, path)) == Unvisited(ids, nodes, path)
  {
    if ids != [] {
      var x := ids[0];
      AssembledIds(nodes, kids, ids[1..], path);
      if x in nodes && x !in path {
        AssembleCons(nodes, kids, ids, path);
      }
    }
  }

  /** No id is left out when every id is stored and none is on the path. */
  lemma {:induction false} NothingUnvisited(ids: seq<string>, nodes: map<string, Directory>, path: set<string>)
    requires forall i :: 0 <= i < |ids| ==> ids[i] in nodes && ids[i] !in path
    ensures Unvisited(ids, nodes, path) == ids
  {
    if ids != [] {
      NothingUnvisited(ids[1..], nodes, path);
      assert ids == [ids[0]] + ids[1..];
    }
  }

  lemma {:induction false} RootIdsAreStored(ds: seq<Directory>, nodes: map<string, Directory>)
    requires forall j :: 0 <= j < |ds| ==> ds[j].id in nodes
    ensures forall i :: 0 <= i < |RootIds(ds, nodes)| ==> RootIds(ds, nodes)[i] in nodes
  {
    if ds != [] {
      var n := |ds| - 1;
      assert forall j :: 0 <= j < n ==> ds[..n][j] == ds[j];
      RootIdsAreStored(ds[..n], nodes);
      var r := RootIds(ds[..n], nodes);
      var t := if HasLiveParent(ds[n], nodes) then [] else [ds[n].id];
      assert RootIds(ds, nodes) == r + t;
      forall i | 0 <= i < |r + t| ensures (r + t)[i] in nodes {
        if i >= |r| {
          assert (r + t)[i] == ds[n].id;
        }
      }
    }
  }

  /**
   * The roots of the built forest are the records without a live parent (a
   * `parentId` that is null, empty or names no fetched id), one root per such
   * record, in input order.
   */
  lemma BuildRootsAreTheOrphans(ds: seq<Directory>)
    ensures IdsOf(Build(ds)) == RootIds(ds, NodeMap(ds))
  {
    var nodes := NodeMap(ds);
    forall j | 0 <= j < |ds| ensures ds[j].id in nodes {
      EveryRecordIsStored(ds, j);
    }
    RootIdsAreStored(ds, nodes);
    StoredUnderOwnId(ds);
    AssembledIds(nodes, ChildMap(ds, nodes), RootIds(ds, nodes), {});
    NothingUnvisited(RootIds(ds, nodes), nodes, {});
  }

  /**
   * Every node of the built forest is the copy of a fetched record with its
   * id, the last one with it: same name and parent, `expanded` read as a
   * boolean and stored, and a children list present, even when empty.
   */
  lemma BuildNodesAreFetchedCopies(ds: seq<Directory>)
    ensures forall n :: n in Subtrees(Build(ds)) ==>
      n.children.Present? && n.expanded.Some? &&
      (exists j :: 0 <= j < |ds| && ds[j].id == n.id && (forall k :: j < k < |ds| ==> ds[k].id != n.id) && Label(n) == Label(Normalise(ds[j])))
  {
    var nodes := NodeMap(ds);
    StoredUnderOwnId(ds);
    AssembledNodesAreCopies(nodes, ChildMap(ds, nodes), RootIds(ds, nodes), {});
    forall n | n in Subtrees(Build(ds))
      ensures n.expanded.Some?
      ensures exists j :: 0 <= j < |ds| && ds[j].id == n.id && (forall k :: j < k < |ds| ==> ds[k].id != n.id) && Label(n) == Label(Normalise(ds[j]))
    {
      var j := StoredIsLastRecord(ds, n.id);
      LastRecordIsStored(ds, j);
      assert Label(n).expanded == n.expanded;
    }
  }

  /**
   * The children of a built node are, in input order, the records whose live
   * parent is that node, leaving out only those already on the way down from
   * the root (which happens only when two records share an id).
   */
  lemma {:induction false} AssembledChildrenAreChildRecords(ds: seq<Directory>, ids: seq<string>, path: set<string>, i: nat)
    decreases |ids|
    requires i < |Assemble(NodeMap(ds), ChildMap(ds, NodeMap(ds)), ids, path)|
    ensures var n := Assemble(NodeMap(ds), ChildMap(ds, NodeMap(ds)), ids, path)[i];
      n.id in NodeMap(ds) && n.id !in path &&
      Kids(n) == Assemble(NodeMap(ds), ChildMap(ds, NodeMap(ds)), ChildIds(ds, NodeMap(ds), n.id), path + {n.id})
  {
    var nodes := NodeMap(ds);
    var kids := ChildMap(ds, nodes);
    var x := ids[0];
    StoredUnderOwnId(ds);
    if x in nodes && x !in path {
      AssembleCons(nodes, kids, ids, path);
      if i > 0 {
        AssembledChildrenAreChildRecords(ds, ids[1..], path, i - 1);
      } else {
        assert Lookup(kids, x) == ChildIds(ds, nodes, x);
      }
    } else {
      AssembledChildrenAreChildRecords(ds, ids[1..], path, i);
    }
  }
}
