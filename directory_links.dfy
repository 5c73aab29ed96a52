/**
 * The shape `buildDirectoryTree` gives a well-formed fetch: when the fetched
 * ids are distinct and the parent links have no cycle, every record is one
 * node of the forest, exactly once, and each node's children are the records
 * whose live parent it is, in input order. Acyclicity is witnessed by a rank
 * that grows from every parent to its child.
 */
module DirectoryLinks {
  import opened Wrappers
  import opened Types
  import opened DirectoryForest
  import opened DirectoryBuild

  predicate Distinct(t: seq<string>)
  {
    forall i, j :: 0 <= i < j < |t| ==> t[i] != t[j]
  }

  /** Every fetched record's parent id ranks below its own id: the parent links have no cycle. */
  predicate Acyclic(ds: seq<Directory>, rank: string -> nat)
  {
    forall j :: 0 <= j < |ds| && Truthy(ds[j].parentId) ==> rank(ds[j].parentId.value) < rank(ds[j].id)
  }

  /** The id a stored copy is linked under by the second loop, when it has a live parent. */
  function ParentOf(nodes: map<string, Directory>, y: string): Option<string>
  {
    if y in nodes && HasLiveParent(nodes[y], nodes) then Some(nodes[y].parentId.value) else None
  }

  ghost predicate RankedNodes(nodes: map<string, Directory>, rank: string -> nat)
  {
    forall y :: ParentOf(nodes, y).Some? ==> rank(ParentOf(nodes, y).value) < rank(y)
  }

  /** `x` is `y` or lies above it on its chain of parent links. */
  predicate AncestorOrSelf(nodes: map<string, Directory>, rank: string -> nat, x: string, y: string)
    requires RankedNodes(nodes, rank)
    decreases rank(y)
  {
    x == y || (ParentOf(nodes, y).Some? && AncestorOrSelf(nodes, rank, x, ParentOf(nodes, y).value))
  }

  /** The children lists hold, without repeats, exactly the ids linked under each id. */
  ghost predicate Linked(nodes: map<string, Directory>, kids: map<string, seq<string>>, rank: string -> nat)
  {
    RankedNodes(nodes, rank) &&
    (forall x :: Distinct(Lookup(kids, x))) &&
    (forall x, c :: c in Lookup(kids, x) <==> ParentOf(nodes, c) == Some(x))
  }

  /** How many of `ids` lie on the chain from `y` up. */
  function CountAncestors(nodes: map<string, Directory>, rank: string -> nat, ids: seq<string>, y: string): nat
    requires RankedNodes(nodes, rank)
  {
    if ids == [] then 0
    else (if AncestorOrSelf(nodes, rank, ids[0], y) then 1 else 0) + CountAncestors(nodes, rank, ids[1..], y)
  }

  // ---------------------------------------------------------------------------
  // Chains of parent links

  lemma {:induction false} AncestorRank(nodes: map<string, Directory>, rank: string -> nat, x: string, y: string)
    requires RankedNodes(nodes, rank) && AncestorOrSelf(nodes, rank, x, y)
    decreases rank(y)
    ensures rank(x) <= rank(y)
  {
    if x != y {
      AncestorRank(nodes, rank, x, ParentOf(nodes, y).value);
    }
  }

  /** The parent of a node on `y`'s chain is on it too. */
  lemma {:induction false} AncestorThroughParent(nodes: map<string, Directory>, rank: string -> nat, c: string, x: string, y: string)
    requires RankedNodes(nodes, rank) && ParentOf(nodes, c) == Some(x) && AncestorOrSelf(nodes, rank, c, y)
    decreases rank(y)
    ensures AncestorOrSelf(nodes, rank, x, y)
  {
    if c == y {
      assert AncestorOrSelf(nodes, rank, x, x);
    } else {
      AncestorThroughParent(nodes, rank, c, x, ParentOf(nodes, y).value);
    }
  }

  /** Two nodes with the same parent, or two roots, on one chain are the same node. */
  lemma {:induction false} SameParentAncestors(nodes: map<string, Directory>, rank: string -> nat, c1: string, c2: string, y: string)
    requires RankedNodes(nodes, rank) && ParentOf(nodes, c1) == ParentOf(nodes, c2)
    requires AncestorOrSelf(nodes, rank, c1, y) && AncestorOrSelf(nodes, rank, c2, y)
    decreases rank(y)
    ensures c1 == c2
  {
    if c1 == y && c2 != y {
      AncestorRank(nodes, rank, c2, ParentOf(nodes, y).value);
      assert false;
    } else if c2 == y && c1 != y {
      AncestorRank(nodes, rank, c1, ParentOf(nodes, y).value);
      assert false;
    } else if c1 != y {
      SameParentAncestors(nodes, rank, c1, c2, ParentOf(nodes, y).value);
    }
  }

  /** Below an ancestor, the chain passes through one of its children. */
  lemma {:induction false} ChildOnTheWay(nodes: map<string, Directory>, rank: string -> nat, x: string, y: string) returns (c: string)
    requires RankedNodes(nodes, rank) && AncestorOrSelf(nodes, rank, x, y) && x != y
    decreases rank(y)
    ensures ParentOf(nodes, c) == Some(x) && AncestorOrSelf(nodes, rank, c, y)
  {
    var p := ParentOf(nodes, y).value;
    if x == p {
      c := y;
    } else {
      c := ChildOnTheWay(nodes, rank, x, p);
    }
  }

  /** Every chain of a stored id ends at a stored root. */
  lemma {:induction false} RootOfTheWay(nodes: map<string, Directory>, rank: string -> nat, y: string) returns (r: string)
    requires RankedNodes(nodes, rank) && y in nodes
    decreases rank(y)
    ensures r in nodes && ParentOf(nodes, r) == None && AncestorOrSelf(nodes, rank, r, y)
  {
    if ParentOf(nodes, y) == None {
      r := y;
    } else {
      r := RootOfTheWay(nodes, rank, ParentOf(nodes, y).value);
    }
  }

  // ---------------------------------------------------------------------------
  // Counting

  lemma {:induction false} CountNone(nodes: map<string, Directory>, rank: string -> nat, ids: seq<string>, y: string)
    requires RankedNodes(nodes, rank)
    requires forall i :: 0 <= i < |ids| ==> !AncestorOrSelf(nodes, rank, ids[i], y)
    ensures CountAncestors(nodes, rank, ids, y) == 0
  {
    if ids != [] {
      assert !AncestorOrSelf(nodes, rank, ids[0], y);
      assert forall i :: 0 <= i < |ids| - 1 ==> ids[1..][i] == ids[i + 1];
      CountNone(nodes, rank, ids[1..], y);
    }
  }

  lemma {:induction false} CountOne(nodes: map<string, Directory>, rank: string -> nat, ids: seq<string>, y: string, c: string)
    requires RankedNodes(nodes, rank) && Distinct(ids) && c in ids && AncestorOrSelf(nodes, rank, c, y)
    requires forall i :: 0 <= i < |ids| && AncestorOrSelf(nodes, rank, ids[i], y) ==> ids[i] == c
    ensures CountAncestors(nodes, rank, ids, y) == 1
  {
    var rest := ids[1..];
    assert forall i :: 0 <= i < |rest| ==> rest[i] == ids[i + 1];
    if ids[0] == c {
      CountNone(nodes, rank, rest, y);
    } else {
      assert c in rest;
      CountOne(nodes, rank, rest, y, c);
    }
  }

  lemma {:induction false} DistinctCount(t: seq<string>, y: string)
    requires Distinct(t)
    ensures multiset(t)[y] == if y in t then 1 else 0
  {
    if t != [] {
      var rest := t[1..];
      assert t == [t[0]] + rest;
      assert forall i :: 0 <= i < |rest| ==> rest[i] == t[i + 1];
      DistinctCount(rest, y);
    }
  }

  /** A node plus the nodes below its children that lie on `y`'s chain: one exactly when the node does. */
  lemma ChildStep(nodes: map<string, Directory>, kids: map<string, seq<string>>, rank: string -> nat, x: string, y: string)
    requires Linked(nodes, kids, rank) && x in nodes
    ensures (if x == y then 1 else 0) + CountAncestors(nodes, rank, Lookup(kids, x), y) == if AncestorOrSelf(nodes, rank, x, y) then 1 else 0
  {
    var cs := Lookup(kids, x);
    if x == y {
      forall i | 0 <= i < |cs| ensures !AncestorOrSelf(nodes, rank, cs[i], y) {
        assert ParentOf(nodes, cs[i]) == Some(x);
        if AncestorOrSelf(nodes, rank, cs[i], y) {
          AncestorRank(nodes, rank, cs[i], y);
          assert false;
        }
      }
      CountNone(nodes, rank, cs, y);
    } else if AncestorOrSelf(nodes, rank, x, y) {
      var c := ChildOnTheWay(nodes, rank, x, y);
      forall i | 0 <= i < |cs| && AncestorOrSelf(nodes, rank, cs[i], y) ensures cs[i] == c {
        assert ParentOf(nodes, cs[i]) == Some(x);
        SameParentAncestors(nodes, rank, cs[i], c, y);
      }
      CountOne(nodes, rank, cs, y, c);
    } else {
      forall i | 0 <= i < |cs| ensures !AncestorOrSelf(nodes, rank, cs[i], y) {
        assert ParentOf(nodes, cs[i]) == Some(x);
        if AncestorOrSelf(nodes, rank, cs[i], y) {
          AncestorThroughParent(nodes, rank, cs[i], x, y);
          assert false;
        }
      }
      CountNone(nodes, rank, cs, y);
    }
  }

  /** The ids of the nodes `Assemble` makes, unfolded at a stored id off the path. */
  lemma AssembledIdsCons(nodes: map<string, Directory>, kids: map<string, seq<string>>, ids: seq<string>, path: set<string>)
    requires ids != [] && ids[0] in nodes && ids[0] !in path && nodes[ids[0]].id == ids[0]
    ensures IdsOf(Subtrees(Assemble(nodes, kids, ids, path))) ==
      [ids[0]] + IdsOf(Subtrees(Assemble(nodes, kids, Lookup(kids, ids[0]), path + {ids[0]}))) + IdsOf(Subtrees(Assemble(nodes, kids, ids[1..], path)))
  {
    var x := ids[0];
    var rest := Assemble(nodes, kids, ids[1..], path);
    var ks := Assemble(nodes, kids, Lookup(kids, x), path + {x});
    var node := nodes[x].(children := Present(ks));
    var f := [node] + rest;
    AssembleCons(nodes, kids, ids, path);
    assert Assemble(nodes, kids, ids, path) == f;
    SubtreesCons(f);
    assert f[0] == node && f[1..] == rest && Kids(node) == ks;
    assert Subtrees(f) == ([node] + Subtrees(ks)) + Subtrees(rest);
    IdsOfAppend([node] + Subtrees(ks), Subtrees(rest));
    IdsOfAppend([node], Subtrees(ks));
    assert IdsOf([node]) == [x];
  }

  /** How often `y` occurs in an id followed by two lists. */
  lemma CountsCombine(x: string, y: string, below: seq<string>, after: seq<string>)
    ensures multiset([x] + below + after)[y] == (if x == y then 1 else 0) + multiset(below)[y] + multiset(after)[y]
  {
    assert multiset([x] + below + after) == multiset([x]) + multiset(below) + multiset(after);
  }

  /** A stored id ranking above the path is off it, and adding it leaves fewer stored ids off the path. */
  lemma OffThePath(nodes: map<string, Directory>, rank: string -> nat, x: string, path: set<string>)
    requires x in nodes && forall p :: p in path ==> rank(p) < rank(x)
    ensures x !in path && |nodes.Keys - (path + {x})| < |nodes.Keys - path|
  {
    assert nodes.Keys - path == (nodes.Keys - (path + {x})) + {x};
  }

  /** The children of the first id are stored and rank above the path extended by that id. */
  lemma ChildrenRankAbove(nodes: map<string, Directory>, kids: map<string, seq<string>>, rank: string -> nat, ids: seq<string>, path: set<string>)
    requires Linked(nodes, kids, rank)
    requires ids != [] && ids[0] in nodes
    requires forall p :: p in path ==> rank(p) < rank(ids[0])
    ensures forall i :: 0 <= i < |Lookup(kids, ids[0])| ==> Lookup(kids, ids[0])[i] in nodes
    ensures forall p, i :: p in path + {ids[0]} && 0 <= i < |Lookup(kids, ids[0])| ==> rank(p) < rank(Lookup(kids, ids[0])[i])
    ensures forall i :: 0 <= i < |Lookup(kids, ids[0])| ==> Lookup(kids, ids[0])[i] !in path + {ids[0]}
  {
    var x, cs := ids[0], Lookup(kids, ids[0]);
    forall i | 0 <= i < |cs| ensures cs[i] in nodes && rank(x) < rank(cs[i]) {
      assert ParentOf(nodes, cs[i]) == Some(x);
    }
  }

  /**
   * Below a path of ids that rank lower than every id assembled, `y` occurs
   * in the assembled forest once for every id of `ids` on its chain.
   */
  lemma {:induction false} AssembledCount(nodes: map<string, Directory>, kids: map<string, seq<string>>, rank: string -> nat, ids: seq<string>, path: set<string>, y: string)
    requires Linked(nodes, kids, rank) && forall x :: x in nodes ==> nodes[x].id == x
    requires forall i :: 0 <= i < |ids| ==> ids[i] in nodes
    requires forall p, i :: p in path && 0 <= i < |ids| ==> rank(p) < rank(ids[i])
    decreases |nodes.Keys - path|, |ids|
    ensures multiset(IdsOf(Subtrees(Assemble(nodes, kids, ids, path))))[y] == CountAncestors(nodes, rank, ids, y)
  {
    if ids != [] {
      var x := ids[0];
      var cs := Lookup(kids, x);
      OffThePath(nodes, rank, x, path);
      ChildrenRankAbove(nodes, kids, rank, ids, path);
      AssembledCount(nodes, kids, rank, cs, path + {x}, y);
      AssembledCount(nodes, kids, rank, ids[1..], path, y);
      AssembledIdsCons(nodes, kids, ids, path);
      ChildStep(nodes, kids, rank, x, y);
      CountsCombine(x, y, IdsOf(Subtrees(Assemble(nodes, kids, cs, path + {x}))), IdsOf(Subtrees(Assemble(nodes, kids, ids[1..], path))));
    }
  }

  /**
   * Below such a path nothing is cut: every assembled node's children are
   * its whole children list, in order.
   */
  lemma {:induction false} AssembledLinks(nodes: map<string, Directory>, kids: map<string, seq<string>>, rank: string -> nat, ids: seq<string>, path: set<string>)
    requires Linked(nodes, kids, rank) && forall x :: x in nodes ==> nodes[x].id == x
    requires forall i :: 0 <= i < |ids| ==> ids[i] in nodes
    requires forall p, i :: p in path && 0 <= i < |ids| ==> rank(p) < rank(ids[i])
    decreases |nodes.Keys - path|, |ids|
    ensures forall n :: n in Subtrees(Assemble(nodes, kids, ids, path)) ==> IdsOf(Kids(n)) == Lookup(kids, n.id)
  {
    if ids != [] {
      var x := ids[0];
      var cs := Lookup(kids, x);
      var rest := Assemble(nodes, kids, ids[1..], path);
      var ks := Assemble(nodes, kids, cs, path + {x});
      OffThePath(nodes, rank, x, path);
      ChildrenRankAbove(nodes, kids, rank, ids, path);
      AssembledLinks(nodes, kids, rank, cs, path + {x});
      AssembledLinks(nodes, kids, rank, ids[1..], path);
      AssembledIds(nodes, kids, cs, path + {x});
      NothingUnvisited(cs, nodes, path + {x});
      AssembleCons(nodes, kids, ids, path);
      var node := nodes[x].(children := Present(ks));
      SubtreesCons([node] + rest);
      assert ([node] + rest)[1..] == rest;
    }
  }

  // ---------------------------------------------------------------------------
  // From the fetched records to the links

  lemma {:induction false} InSubtrees(g: seq<Directory>)
    decreases Size(g)
    ensures forall d :: d in g ==> d in Subtrees(g)
  {
    if g != [] {
      SubtreesCons(g);
      InSubtrees(g[1..]);
      assert forall d :: d in g ==> d == g[0] || d in g[1..];
    }
  }

  /** The children of a node of a forest are nodes of the forest. */
  lemma {:induction false} KidsInSubtrees(f: seq<Directory>)
    decreases Size(f)
    ensures forall n, c :: n in Subtrees(f) && c in Kids(n) ==> c in Subtrees(f)
  {
    if f != [] {
      var x := f[0];
      SubtreesCons(f);
      assert Size(Kids(x)) < Size(f);
      KidsInSubtrees(Kids(x));
      KidsInSubtrees(f[1..]);
      InSubtrees(Kids(x));
    }
  }

  /** With distinct ids, the copy stored for a record's id is that record's. */
  lemma RecordIsStored(ds: seq<Directory>, j: nat)
    requires Distinct(IdsOf(ds)) && j < |ds|
    ensures ds[j].id in NodeMap(ds) && NodeMap(ds)[ds[j].id] == Normalise(ds[j])
    ensures ParentOf(NodeMap(ds), ds[j].id) == if HasLiveParent(ds[j], NodeMap(ds)) then Some(ds[j].parentId.value) else None
  {
    var nodes := NodeMap(ds);
    var t := IdsOf(ds);
    forall k | j < k < |ds| ensures ds[k].id != ds[j].id {
      assert t[k] == ds[k].id && t[j] == ds[j].id;
    }
    LastRecordIsStored(ds, j);
    CopyLinksAsRecord(nodes, ds[j]);
  }

  lemma CopyLinksAsRecord(nodes: map<string, Directory>, d: Directory)
    requires d.id in nodes && nodes[d.id] == Normalise(d)
    ensures ParentOf(nodes, d.id) == if HasLiveParent(d, nodes) then Some(d.parentId.value) else None
  {
    assert Normalise(d).parentId == d.parentId;
  }

  /** The ids stored are the fetched ids. */
  lemma StoredAreFetched(ds: seq<Directory>)
    ensures forall y :: y in NodeMap(ds) <==> y in IdsOf(ds)
  {
    forall y | y in NodeMap(ds) ensures y in IdsOf(ds) {
      var j := StoredIsLastRecord(ds, y);
      assert IdsOf(ds)[j] == y;
    }
    forall y | y in IdsOf(ds) ensures y in NodeMap(ds) {
      var j :| 0 <= j < |ds| && IdsOf(ds)[j] == y;
      EveryRecordIsStored(ds, j);
    }
  }

  lemma {:induction false} DistinctSnoc(a: seq<string>, v: string)
    requires Distinct(a) && v !in a
    ensures Distinct(a + [v])
  {
  }

  lemma DistinctLast(t: seq<string>)
    requires Distinct(t) && t != []
    ensures Distinct(t[..|t| - 1]) && t[|t| - 1] !in t[..|t| - 1]
  {
  }

  /** Where the second loop puts each record agrees with `ParentOf`. */
  predicate Agrees(s: seq<Directory>, nodes: map<string, Directory>)
  {
    forall j :: 0 <= j < |s| ==> ParentOf(nodes, s[j].id) == if HasLiveParent(s[j], nodes) then Some(s[j].parentId.value) else None
  }

  lemma {:induction false} ChildIdsMembers(s: seq<Directory>, nodes: map<string, Directory>, x: string)
    requires Agrees(s, nodes)
    ensures forall y :: y in ChildIds(s, nodes, x) <==> y in IdsOf(s) && ParentOf(nodes, y) == Some(x)
    ensures Distinct(IdsOf(s)) ==> Distinct(ChildIds(s, nodes, x))
  {
    if s != [] {
      var n := |s| - 1;
      var t := IdsOf(s);
      assert IdsOf(s[..n]) == t[..n] && t[n] == s[n].id;
      assert t == t[..n] + [t[n]];
      assert forall j :: 0 <= j < n ==> s[..n][j] == s[j];
      ChildIdsMembers(s[..n], nodes, x);
      if Distinct(t) {
        DistinctLast(t);
        if HasLiveParent(s[n], nodes) && s[n].parentId.value == x {
          DistinctSnoc(ChildIds(s[..n], nodes, x), s[n].id);
        }
      }
    }
  }

  lemma {:induction false} RootIdsMembers(s: seq<Directory>, nodes: map<string, Directory>)
    requires Agrees(s, nodes)
    ensures forall y :: y in RootIds(s, nodes) <==> y in IdsOf(s) && ParentOf(nodes, y) == None
    ensures Distinct(IdsOf(s)) ==> Distinct(RootIds(s, nodes))
  {
    if s != [] {
      var n := |s| - 1;
      var t := IdsOf(s);
      assert IdsOf(s[..n]) == t[..n] && t[n] == s[n].id;
      assert t == t[..n] + [t[n]];
      assert forall j :: 0 <= j < n ==> s[..n][j] == s[j];
      RootIdsMembers(s[..n], nodes);
      if Distinct(t) {
        DistinctLast(t);
        if !HasLiveParent(s[n], nodes) {
          DistinctSnoc(RootIds(s[..n], nodes), s[n].id);
        }
      }
    }
  }

  /** A well-formed fetch: the copies and the children lists the two loops build are linked by `ParentOf`. */
  lemma FetchIsLinked(ds: seq<Directory>, rank: string -> nat)
    requires Distinct(IdsOf(ds)) && Acyclic(ds, rank)
    ensures Agrees(ds, NodeMap(ds))
    ensures Linked(NodeMap(ds), ChildMap(ds, NodeMap(ds)), rank)
  {
    var nodes := NodeMap(ds);
    var kids := ChildMap(ds, nodes);
    forall j | 0 <= j < |ds| ensures ParentOf(nodes, ds[j].id) == if HasLiveParent(ds[j], nodes) then Some(ds[j].parentId.value) else None {
      RecordIsStored(ds, j);
    }
    StoredAreFetched(ds);
    forall y | ParentOf(nodes, y).Some? ensures rank(ParentOf(nodes, y).value) < rank(y) {
      var j := StoredIsLastRecord(ds, y);
      RecordIsStored(ds, j);
    }
    forall x ensures Distinct(Lookup(kids, x)) && forall c :: c in Lookup(kids, x) <==> ParentOf(nodes, c) == Some(x) {
      if x in nodes {
        ChildIdsMembers(ds, nodes, x);
      }
    }
  }

  // ---------------------------------------------------------------------------
  // The shape of the built forest

  /**
   * With distinct ids and acyclic parent links, every fetched record is a
   * node of the built forest exactly once, and the forest has no other node.
   */
  lemma BuildHoldsEachRecordOnce(ds: seq<Directory>, rank: string -> nat)
    requires Distinct(IdsOf(ds)) && Acyclic(ds, rank)
    ensures multiset(IdsOf(Subtrees(Build(ds)))) == multiset(IdsOf(ds))
    ensures |Subtrees(Build(ds))| == |ds|
  {
    forall y ensures multiset(IdsOf(Subtrees(Build(ds))))[y] == multiset(IdsOf(ds))[y] {
      BuildCountsOnce(ds, rank, y);
    }
    assert multiset(IdsOf(Subtrees(Build(ds)))) == multiset(IdsOf(ds));
    assert |multiset(IdsOf(Subtrees(Build(ds))))| == |IdsOf(Subtrees(Build(ds)))|;
  }

  /** One id at a time: an id occurs among the forest's nodes as often as among the records. */
  lemma BuildCountsOnce(ds: seq<Directory>, rank: string -> nat, y: string)
    requires Distinct(IdsOf(ds)) && Acyclic(ds, rank)
    ensures multiset(IdsOf(Subtrees(Build(ds))))[y] == multiset(IdsOf(ds))[y]
  {
    var nodes := NodeMap(ds);
    var kids := ChildMap(ds, nodes);
    var roots := RootIds(ds, nodes);
    FetchIsLinked(ds, rank);
    StoredUnderOwnId(ds);
    StoredAreFetched(ds);
    RootIdsMembers(ds, nodes);
    AssembledCount(nodes, kids, rank, roots, {}, y);
    DistinctCount(IdsOf(ds), y);
    if y in nodes {
      var r := RootOfTheWay(nodes, rank, y);
      forall i | 0 <= i < |roots| && AncestorOrSelf(nodes, rank, roots[i], y) ensures roots[i] == r {
        SameParentAncestors(nodes, rank, roots[i], r, y);
      }
      CountOne(nodes, rank, roots, y, r);
    } else {
      CountNone(nodes, rank, roots, y);
    }
  }

  /**
   * With distinct ids and acyclic parent links, each node's children are the
   * records whose live parent it is, in input order.
   */
  lemma BuildLinksChildren(ds: seq<Directory>, rank: string -> nat)
    requires Distinct(IdsOf(ds)) && Acyclic(ds, rank)
    ensures forall n :: n in Subtrees(Build(ds)) ==> n.id in NodeMap(ds) && IdsOf(Kids(n)) == ChildIds(ds, NodeMap(ds), n.id)
  {
    var nodes := NodeMap(ds);
    var kids := ChildMap(ds, nodes);
    var roots := RootIds(ds, nodes);
    FetchIsLinked(ds, rank);
    StoredUnderOwnId(ds);
    StoredAreFetched(ds);
    RootIdsMembers(ds, nodes);
    AssembledLinks(nodes, kids, rank, roots, {});
    AssembledNodesAreCopies(nodes, kids, roots, {});
  }

  /** With distinct ids and acyclic parent links, each child's `parentId` is the id of the node it hangs under. */
  lemma BuildChildrenPointUp(ds: seq<Directory>, rank: string -> nat)
    requires Distinct(IdsOf(ds)) && Acyclic(ds, rank)
    ensures forall n, c :: n in Subtrees(Build(ds)) && c in Kids(n) ==> c.parentId == Some(n.id)
  {
    var nodes := NodeMap(ds);
    var kids := ChildMap(ds, nodes);
    BuildLinksChildren(ds, rank);
    FetchIsLinked(ds, rank);
    StoredUnderOwnId(ds);
    AssembledNodesAreCopies(nodes, kids, RootIds(ds, nodes), {});
    KidsInSubtrees(Build(ds));
    forall n, c | n in Subtrees(Build(ds)) && c in Kids(n) ensures c.parentId == Some(n.id) {
      var i :| 0 <= i < |Kids(n)| && Kids(n)[i] == c;
      assert c.id == IdsOf(Kids(n))[i];
      assert c.id in Lookup(kids, n.id);
      assert ParentOf(nodes, c.id) == Some(n.id);
      assert Label(c).parentId == c.parentId;
    }
  }
}
