/**
 Forest reconstruction: when every PartsList is the set of proper descendants in some
 forest, `getEndpointTree` returns the preorder of that forest with the true depths.
 */
module EndpointForest {
  import opened EndpointTree
  import opened Sequences

  datatype Tree = Node(id: int, kids: seq<Tree>)

  function Ids(t: Tree): set<int>
    decreases t, 0
  {
    {t.id} + AllIds(t.kids)
  }

  function AllIds(f: seq<Tree>): set<int>
    decreases f, 1
  {
    if f == [] then {} else Ids(f[0]) + AllIds(f[1..])
  }

  /** Every subtree of the forest. */
  function Nodes(t: Tree): set<Tree>
    decreases t, 0
  {
    {t} + AllNodes(t.kids)
  }

  function AllNodes(f: seq<Tree>): set<Tree>
    decreases f, 1
  {
    if f == [] then {} else Nodes(f[0]) + AllNodes(f[1..])
  }

  /** No id twice, and siblings in ascending order. */
  predicate Proper(f: seq<Tree>)
    decreases f, 1
  {
    f == [] ||
    (ProperTree(f[0]) && Ids(f[0]) !! AllIds(f[1..]) && Proper(f[1..]) && (|f| > 1 ==> f[0].id < f[1].id))
  }

  predicate ProperTree(t: Tree)
    decreases t, 0
  {
    t.id !in AllIds(t.kids) && Proper(t.kids)
  }

  /** The preorder of the forest, each node with its depth. */
  function Flatten(t: Tree, depth: nat): seq<Entry>
    decreases t, 0
  {
    [Entry(t.id, depth)] + FlattenAll(t.kids, depth + 1)
  }

  function FlattenAll(f: seq<Tree>, depth: nat): seq<Entry>
    decreases f, 1
  {
    if f == [] then [] else Flatten(f[0], depth) + FlattenAll(f[1..], depth)
  }

  function RootIds(f: seq<Tree>): set<int> {
    if f == [] then {} else {f[0].id} + RootIds(f[1..])
  }

  /** Each endpoint's PartsList names exactly its proper descendants, in any order. */
  predicate Describes(f: seq<Tree>, raw: map<int, seq<int>>, ids: seq<int>) {
    && Elements(ids) == AllIds(f)
    && forall n :: n in AllNodes(f) ==> (if n.id in raw then Elements(raw[n.id]) else {}) == AllIds(n.kids)
  }

  // ----- Ids and subtrees -----

  lemma {:induction false} NodeIds(f: seq<Tree>, n: Tree)
    requires n in AllNodes(f)
    ensures Ids(n) <= AllIds(f) && AllNodes(n.kids) <= AllNodes(f)
    decreases f, 1
  {
    if n in Nodes(f[0]) {
      if n != f[0] {
        NodeIds(f[0].kids, n);
      }
    } else {
      NodeIds(f[1..], n);
    }
  }

  lemma {:induction false} NodesAreProper(f: seq<Tree>, n: Tree)
    requires Proper(f) && n in AllNodes(f)
    ensures ProperTree(n)
    decreases f, 1
  {
    if n in Nodes(f[0]) {
      if n != f[0] {
        NodesAreProper(f[0].kids, n);
      }
    } else {
      NodesAreProper(f[1..], n);
    }
  }

  lemma {:induction false} RootIsInside(f: seq<Tree>, id: int)
    ensures id in RootIds(f) ==> id in AllIds(f)
    decreases f, 1
  {
    if f != [] {
      RootIsInside(f[1..], id);
    }
  }

  /** A root of the forest is below none of its nodes. */
  lemma {:induction false} RootIsNotBelow(f: seq<Tree>, id: int, n: Tree)
    requires Proper(f) && id in RootIds(f) && n in AllNodes(f)
    ensures id !in AllIds(n.kids)
    decreases f, 1
  {
    RootIsInside(f[1..], id);
    if n in Nodes(f[0]) {
      assert AllIds(n.kids) <= AllIds(f[0].kids) by {
        if n != f[0] {
          NodeIds(f[0].kids, n);
        }
      }
    } else {
      NodeIds(f[1..], n);
      if id != f[0].id {
        RootIsNotBelow(f[1..], id, n);
      }
    }
  }

  /** Every id of the forest that is not a root is below a root of it. */
  lemma {:induction false} BelowSomeRoot(f: seq<Tree>, id: int) returns (k: Tree)
    requires id in AllIds(f) && id !in RootIds(f)
    ensures k in AllNodes(f) && k.id in RootIds(f) && id in AllIds(k.kids)
    decreases f, 1
  {
    if id in AllIds(f[0].kids) {
      k := f[0];
    } else {
      k := BelowSomeRoot(f[1..], id);
    }
  }

  lemma {:induction false} NodeWithId(f: seq<Tree>, id: int) returns (n: Tree)
    requires id in AllIds(f)
    ensures n in AllNodes(f) && n.id == id
    decreases f, 1
  {
    if id == f[0].id {
      n := f[0];
    } else if id in AllIds(f[0].kids) {
      n := NodeWithId(f[0].kids, id);
    } else {
      n := NodeWithId(f[1..], id);
    }
  }

  lemma InElements(s: seq<int>, x: int)
    ensures x in Elements(s) <==> x in s
  {
  }

  // ----- The children that are computed -----

  lemma PartsAreDescendants(f: seq<Tree>, raw: map<int, seq<int>>, ids: seq<int>, n: Tree)
    requires Proper(f) && Describes(f, raw, ids) && n in AllNodes(f)
    ensures n.id in Parts(raw, ids) && Elements(Parts(raw, ids)[n.id]) == AllIds(n.kids)
  {
    NodeIds(f, n);
    NodesAreProper(f, n);
    var own := Parts(raw, ids)[n.id];
    forall c
      ensures c in own <==> c in AllIds(n.kids)
    {
      assert n.id in raw ==> (c in Elements(raw[n.id]) <==> c in raw[n.id]);
      assert c in Elements(ids) <==> c in AllIds(f);
    }
  }

  /** The direct children that the filter keeps are exactly the node's kids. */
  lemma ChildrenAreKids(f: seq<Tree>, raw: map<int, seq<int>>, ids: seq<int>, n: Tree)
    requires Proper(f) && Describes(f, raw, ids) && n in AllNodes(f)
    ensures n.id in Children(Parts(raw, ids))
    ensures Elements(Children(Parts(raw, ids))[n.id]) == RootIds(n.kids)
  {
    var parts := Parts(raw, ids);
    PartsAreDescendants(f, raw, ids, n);
    NodesAreProper(f, n);
    NodeIds(f, n);
    var kept := Children(parts)[n.id];
    forall c
      ensures c in kept <==> c in RootIds(n.kids)
    {
      RootIsInside(n.kids, c);
      assert c in parts[n.id] <==> c in Elements(parts[n.id]);
      if c in RootIds(n.kids) {
        forall other | other in parts[n.id]
          ensures c !in parts[other]
        {
          assert other in Elements(parts[n.id]);
          var m := NodeWithId(n.kids, other);
          RootIsNotBelow(n.kids, c, m);
          PartsAreDescendants(f, raw, ids, m);
          InElements(parts[other], c);
        }
      } else if c in AllIds(n.kids) {
        var k := BelowSomeRoot(n.kids, c);
        NodeIds(n.kids, k);
        RootIsNotBelow(n.kids, k.id, k);
        PartsAreDescendants(f, raw, ids, k);
        RootIsInside(n.kids, k.id);
        assert c in Elements(parts[k.id]);
        assert k.id in Elements(parts[n.id]);
        assert k.id in parts[n.id] && k.id != c && c in parts[k.id];
      }
    }
  }

  // ----- The traversal of the forest -----

  /** The traversal's map gives every node of `f` its kids. */
  predicate Reflects(children: map<int, seq<int>>, f: seq<Tree>) {
    && Closed(children)
    && (forall id :: id in children ==> Sorted(children[id]))
    && forall n :: n in AllNodes(f) ==> n.id in children && Elements(children[n.id]) == RootIds(n.kids)
  }

  lemma ReflectsPart(children: map<int, seq<int>>, f: seq<Tree>)
    requires Reflects(children, f) && f != []
    ensures f[0] in AllNodes(f) && Reflects(children, f[0].kids) && Reflects(children, f[1..])
  {
  }

  lemma {:induction false} VisitFlattens(children: map<int, seq<int>>, t: Tree, depth: nat, w: Walk)
    requires Reflects(children, [t]) && ProperTree(t) && Ids(t) !! w.visited
    ensures t.id in children
    ensures Visit(children, t.id, depth, w) == Walk(w.visited + Ids(t), w.ordered + Flatten(t, depth))
    decreases t, 0
  {
    assert t in AllNodes([t]) by {
      assert [t][0] == t;
    }
    ReflectsPart(children, [t]);
    assert [t][0] == t;
    var inner := Walk(w.visited + {t.id}, w.ordered + [Entry(t.id, depth)]);
    VisitAllFlattens(children, children[t.id], t.kids, depth + 1, inner);
    assert inner.visited + AllIds(t.kids) == w.visited + Ids(t);
    assert inner.ordered + FlattenAll(t.kids, depth + 1) == w.ordered + Flatten(t, depth);
  }

  /** A sorted list that names the roots of `f` and otherwise only what has been visited. */
  lemma {:induction false} VisitAllFlattens(children: map<int, seq<int>>, list: seq<int>, f: seq<Tree>, depth: nat, w: Walk)
    requires Reflects(children, f) && Proper(f) && AllIds(f) !! w.visited && Sorted(list)
    requires RootIds(f) <= Elements(list) <= RootIds(f) + w.visited
    requires forall id :: id in list ==> id in children
    ensures VisitAll(children, list, depth, w) == Walk(w.visited + AllIds(f), w.ordered + FlattenAll(f, depth))
    decreases f, 1, |list|
  {
    hide Reflects, ProperTree, FlattenAll, Flatten, Ids, Nodes, AllNodes, Visit, VisitAll;
    ClosedIs(children, f);
    VisitAllStep(children, list, depth, w);
    if list == [] {
      assert f == [];
      NothingFlattened(depth);
      assert w.ordered + [] == w.ordered;
    } else {
      InElements(list, list[0]);
      RootsInside(f);
      if list[0] in w.visited {
        RestOfList(list, f, w.visited);
        VisitAllFlattens(children, list[1..], f, depth, w);
      } else {
        FirstRoot(list, f, w.visited);
        RestOfRoots(list, f, w.visited);
        ReflectsPart(children, f);
        ReflectsOne(children, f);
        VisitFlattens(children, f[0], depth, w);
        var next := Walk(w.visited + Ids(f[0]), w.ordered + Flatten(f[0], depth));
        VisitAllFlattens(children, list[1..], f[1..], depth, next);
        FlattenStep(f, depth);
        assert next.visited + AllIds(f[1..]) == w.visited + AllIds(f);
        Associate(w.ordered, Flatten(f[0], depth), FlattenAll(f[1..], depth));
      }
    }
  }

  /** One turn of the loop over a list; an endpoint that was visited is skipped. */
  lemma VisitAllStep(children: map<int, seq<int>>, list: seq<int>, depth: nat, w: Walk)
    requires Closed(children) && forall id :: id in list ==> id in children
    ensures list == [] ==> VisitAll(children, list, depth, w) == w
    ensures list != [] ==>
              var first := Visit(children, list[0], depth, w);
              && VisitAll(children, list, depth, w) == VisitAll(children, list[1..], depth, first)
              && (list[0] in w.visited ==> first == w)
  {
  }

  lemma ClosedIs(children: map<int, seq<int>>, f: seq<Tree>)
    requires Reflects(children, f)
    ensures Closed(children)
  {
  }

  lemma NothingFlattened(depth: nat)
    ensures FlattenAll([], depth) == []
  {
  }

  lemma FlattenStep(f: seq<Tree>, depth: nat)
    requires f != []
    ensures FlattenAll(f, depth) == Flatten(f[0], depth) + FlattenAll(f[1..], depth)
  {
  }

  lemma RestOfList(list: seq<int>, f: seq<Tree>, visited: set<int>)
    requires list != [] && list[0] in visited && RootIds(f) !! visited
    requires RootIds(f) <= Elements(list) <= RootIds(f) + visited
    ensures RootIds(f) <= Elements(list[1..]) <= RootIds(f) + visited
  {
    assert list == [list[0]] + list[1..];
    assert Elements(list) == {list[0]} + Elements(list[1..]);
  }

  lemma RestOfRoots(list: seq<int>, f: seq<Tree>, visited: set<int>)
    requires Proper(f) && f != [] && list != [] && list[0] == f[0].id
    requires RootIds(f) <= Elements(list) <= RootIds(f) + visited
    ensures RootIds(f[1..]) <= Elements(list[1..]) <= RootIds(f[1..]) + (visited + Ids(f[0]))
    ensures ProperTree(f[0]) && Ids(f[0]) !! AllIds(f[1..]) && AllIds(f) == Ids(f[0]) + AllIds(f[1..])
  {
    RootsInside(f[1..]);
    assert list == [list[0]] + list[1..];
    assert Elements(list) == {list[0]} + Elements(list[1..]);
  }

  lemma ReflectsOne(children: map<int, seq<int>>, f: seq<Tree>)
    requires Reflects(children, f) && f != []
    ensures Reflects(children, [f[0]])
  {
    assert [f[0]][1..] == [];
    assert AllNodes([f[0]]) == Nodes(f[0]);
  }

  lemma RootsInside(f: seq<Tree>)
    ensures RootIds(f) <= AllIds(f)
  {
    forall id | id in RootIds(f)
      ensures id in AllIds(f)
    {
      RootIsInside(f, id);
    }
  }

  lemma {:induction false} RootsAscend(f: seq<Tree>, id: int)
    requires Proper(f) && f != [] && id in RootIds(f[1..])
    ensures f[0].id < id
    decreases |f|
  {
    if id != f[1].id {
      RootsAscend(f[1..], id);
    }
  }

  /** The first unvisited entry of the sorted list is the first root. */
  lemma FirstRoot(list: seq<int>, f: seq<Tree>, visited: set<int>)
    requires Proper(f) && AllIds(f) !! visited && Sorted(list) && list != [] && list[0] !in visited
    requires RootIds(f) <= Elements(list) <= RootIds(f) + visited
    ensures f != [] && list[0] == f[0].id
  {
    InElements(list, list[0]);
    assert list[0] in RootIds(f);
    InElements(list, f[0].id);
    var i :| 0 <= i < |list| && list[i] == f[0].id;
    if list[0] != f[0].id {
      RootsAscend(f, list[0]);
    }
  }

  lemma {:induction false} AllVisited(children: map<int, seq<int>>, list: seq<int>, depth: nat, w: Walk)
    requires Closed(children) && forall id :: id in list ==> id in children && id in w.visited
    ensures VisitAll(children, list, depth, w) == w
    decreases |list|
  {
    if list != [] {
      AllVisited(children, list[1..], depth, w);
    }
  }

  lemma RootsHaveNoParent(f: seq<Tree>, raw: map<int, seq<int>>, ids: seq<int>, id: int)
    requires Proper(f) && Describes(f, raw, ids) && id in AllIds(f)
    ensures IsChild(Children(Parts(raw, ids)), id) <==> id !in RootIds(f)
  {
    var children := Children(Parts(raw, ids));
    if id in RootIds(f) {
      forall parent | parent in children
        ensures id !in children[parent]
      {
        InElements(ids, parent);
        var n := NodeWithId(f, parent);
        ChildrenAreKids(f, raw, ids, n);
        RootIsNotBelow(f, id, n);
        RootsInside(n.kids);
        InElements(children[parent], id);
      }
    } else {
      var n := ParentNode(f, id);
      ChildrenAreKids(f, raw, ids, n);
      InElements(children[n.id], id);
    }
  }

  /** Every node that is not a root is a kid of some node. */
  lemma {:induction false} ParentNode(f: seq<Tree>, id: int) returns (n: Tree)
    requires id in AllIds(f) && id !in RootIds(f)
    ensures n in AllNodes(f) && id in RootIds(n.kids)
    decreases f, 1
  {
    if id in AllIds(f[0].kids) {
      if id in RootIds(f[0].kids) {
        n := f[0];
      } else {
        n := ParentNode(f[0].kids, id);
      }
    } else {
      n := ParentNode(f[1..], id);
    }
  }

  /**
   Forest reconstruction: whatever the order of the endpoints and of the PartsLists, the
   result is the preorder of the forest they describe.
   */
  lemma ForestIsReconstructed(f: seq<Tree>, raw: map<int, seq<int>>, ids: seq<int>)
    requires Proper(f) && Describes(f, raw, ids)
    ensures TreeOf(raw, ids) == FlattenAll(f, 0)
  {
    hide VisitAll, Children, Parts, Reflects, Describes, FlattenAll, KeepRoots, AllIds, RootIds, Elements, Proper;
    var children := Children(Parts(raw, ids));
    DescribedIsReflected(f, raw, ids);
    RootsAreFound(f, raw, ids);
    AllReached(f, raw, ids);
    var roots, start := Sort(KeepRoots(children, ids)), Walk({}, []);
    VisitAllFlattens(children, roots, f, 0, start);
    assert [] + FlattenAll(f, 0) == FlattenAll(f, 0);
    AllVisited(children, Sort(ids), 0, VisitAll(children, roots, 0, start));
  }

  lemma DescribedIsReflected(f: seq<Tree>, raw: map<int, seq<int>>, ids: seq<int>)
    requires Proper(f) && Describes(f, raw, ids)
    ensures Reflects(Children(Parts(raw, ids)), f)
  {
    var children := Children(Parts(raw, ids));
    forall n | n in AllNodes(f)
      ensures n.id in children && Elements(children[n.id]) == RootIds(n.kids)
    {
      ChildrenAreKids(f, raw, ids, n);
    }
  }

  lemma AllReached(f: seq<Tree>, raw: map<int, seq<int>>, ids: seq<int>)
    requires Describes(f, raw, ids)
    ensures forall id :: id in Sort(ids) ==> id in Children(Parts(raw, ids)) && id in AllIds(f)
    ensures forall id :: id in KeepRoots(Children(Parts(raw, ids)), ids) ==> id in Children(Parts(raw, ids))
  {
    forall id | id in ids
      ensures id in Elements(ids)
    {
    }
  }

  lemma RootsAreFound(f: seq<Tree>, raw: map<int, seq<int>>, ids: seq<int>)
    requires Proper(f) && Describes(f, raw, ids)
    ensures Elements(Sort(KeepRoots(Children(Parts(raw, ids)), ids))) == RootIds(f)
  {
    var roots := Sort(KeepRoots(Children(Parts(raw, ids)), ids));
    forall id
      ensures id in Elements(roots) <==> id in RootIds(f)
    {
      InElements(roots, id);
      InElements(ids, id);
      RootIsInside(f, id);
      if id in AllIds(f) {
        RootsHaveNoParent(f, raw, ids, id);
      }
    }
  }
}
