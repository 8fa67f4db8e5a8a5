/**
 `getEndpointTree` of packages/dashboard/src/util/endpoints.ts: endpoints in parent-first
 order, from PartsLists that name all descendants and not only the children.
 */
module EndpointTree {
  import StableSort

  datatype Entry = Entry(endpointId: int, depth: nat)

  // ----- Lists -----

  predicate Sorted(s: seq<int>) {
    forall i, j :: 0 <= i < j < |s| ==> s[i] <= s[j]
  }

  /** `sort((a, b) => a - b)`. */
  function Sort(s: seq<int>): (r: seq<int>)
    ensures Sorted(r) && |r| == |s|
    ensures forall y :: y in r <==> y in s
  {
    var order := StableSort.InOrder(s);
    var r := seq(|order|, a requires 0 <= a < |order| => s[order[a]]);
    assert forall a, b :: 0 <= a < b < |r| ==> StableSort.Before(s, order[a], order[b]);
    assert forall y :: y in s ==> y in r by {
      forall y | y in s
        ensures y in r
      {
        var i: nat :| i < |s| && s[i] == y;
        assert i in order;
        var a :| 0 <= a < |order| && order[a] == i;
        assert r[a] == y;
      }
    }
    assert forall y :: y in r ==> y in s by {
      assert forall a :: 0 <= a < |r| ==> r[a] == s[order[a]];
    }
    r
  }

  function Elements(s: seq<int>): set<int> {
    set x | x in s
  }

  // ----- Parts and direct children -----

  /** `list.filter(childId => idSet.has(childId) && childId !== id)`. */
  function OwnParts(raw: seq<int>, idSet: set<int>, id: int): (r: seq<int>)
    ensures forall c :: c in r <==> c in raw && c in idSet && c != id
  {
    if raw == [] then []
    else
      (if raw[0] in idSet && raw[0] != id then [raw[0]] else []) + OwnParts(raw[1..], idSet, id)
  }

  predicate Closed(lists: map<int, seq<int>>) {
    forall id :: id in lists ==> forall c :: c in lists[id] ==> c in lists
  }

  /** A descendant that none of the other descendants lists. */
  predicate IsDirect(parts: map<int, seq<int>>, descendants: seq<int>, child: int)
    requires forall d :: d in descendants ==> d in parts
  {
    !exists other :: other in descendants && other != child && child in parts[other]
  }

  function KeepDirect(parts: map<int, seq<int>>, descendants: seq<int>, from: seq<int>): (r: seq<int>)
    requires forall d :: d in descendants ==> d in parts
    ensures forall c :: c in r <==> c in from && IsDirect(parts, descendants, c)
  {
    if from == [] then []
    else
      (if IsDirect(parts, descendants, from[0]) then [from[0]] else []) + KeepDirect(parts, descendants, from[1..])
  }

  function DirectChildren(parts: map<int, seq<int>>, id: int): (r: seq<int>)
    requires Closed(parts) && id in parts
    ensures Sorted(r)
    ensures forall c :: c in r <==> c in parts[id] && IsDirect(parts, parts[id], c)
  {
    Sort(KeepDirect(parts, parts[id], parts[id]))
  }

  // ----- The traversal -----

  datatype Walk = Walk(visited: set<int>, ordered: seq<Entry>)

  function Unvisited(children: map<int, seq<int>>, w: Walk): nat {
    |children.Keys - w.visited|
  }

  lemma VisitingShrinks(children: map<int, seq<int>>, v: set<int>, w: set<int>)
    requires v <= w
    ensures |children.Keys - w| <= |children.Keys - v|
    ensures (exists id :: id in children && id in w && id !in v) ==> |children.Keys - w| < |children.Keys - v|
  {
    var a, b := children.Keys - v, children.Keys - w;
    assert b <= a;
    assert a == b + (a - b);
    if id :| id in children && id in w && id !in v {
      assert id in a - b;
    }
  }

  function Visit(children: map<int, seq<int>>, id: int, depth: nat, w: Walk): (r: Walk)
    requires Closed(children) && id in children
    ensures w.visited <= r.visited && id in r.visited
    decreases Unvisited(children, w), 0
  {
    if id in w.visited then w
    else
      VisitingShrinks(children, w.visited, w.visited + {id});
      VisitAll(children, children[id], depth + 1, Walk(w.visited + {id}, w.ordered + [Entry(id, depth)]))
  }

  function VisitAll(children: map<int, seq<int>>, ids: seq<int>, depth: nat, w: Walk): (r: Walk)
    requires Closed(children) && forall id :: id in ids ==> id in children
    ensures w.visited <= r.visited && forall id :: id in ids ==> id in r.visited
    decreases Unvisited(children, w), |ids| + 1
  {
    if ids == [] then w
    else
      var first := Visit(children, ids[0], depth, w);
      VisitingShrinks(children, w.visited, first.visited);
      VisitAll(children, ids[1..], depth, first)
  }

  // ----- What holds for every input -----

  /** The nearest earlier entry one level up, and the entry is a direct child of it. */
  predicate HasParent(children: map<int, seq<int>>, o: seq<Entry>, i: nat)
    requires i < |o|
  {
    exists j: nat :: j < i && ParentAt(children, o, j, i)
  }

  predicate ParentAt(children: map<int, seq<int>>, o: seq<Entry>, j: nat, i: nat)
    requires j < i < |o|
  {
    && o[j].depth + 1 == o[i].depth
    && o[j].endpointId in children && o[i].endpointId in children[o[j].endpointId]
    && forall k :: j < k < i ==> o[k].depth >= o[i].depth
  }

  /** A run of entries at `depth` and below, each deeper one behind its parent. */
  predicate TreeOrder(children: map<int, seq<int>>, o: seq<Entry>, depth: nat) {
    forall i :: 0 <= i < |o| ==> o[i].depth >= depth && (o[i].depth > depth ==> HasParent(children, o, i))
  }

  lemma ParentBehind(children: map<int, seq<int>>, a: seq<Entry>, b: seq<Entry>, j: nat, i: nat)
    requires j < i < |b| && ParentAt(children, b, j, i)
    ensures ParentAt(children, a + b, |a| + j, |a| + i)
  {
    var o := a + b;
    forall k | |a| + j < k < |a| + i
      ensures o[k].depth >= o[|a| + i].depth
    {
      assert o[k] == b[k - |a|];
    }
  }

  lemma TreeOrderConcat(children: map<int, seq<int>>, a: seq<Entry>, b: seq<Entry>, depth: nat)
    requires TreeOrder(children, a, depth) && TreeOrder(children, b, depth)
    ensures TreeOrder(children, a + b, depth)
  {
    var o := a + b;
    forall i | 0 <= i < |o|
      ensures o[i].depth >= depth && (o[i].depth > depth ==> HasParent(children, o, i))
    {
      if i < |a| {
        if a[i].depth > depth {
          var j: nat :| j < i && ParentAt(children, a, j, i);
          assert ParentAt(children, o, j, i);
        }
      } else if b[i - |a|].depth > depth {
        var j: nat :| j < i - |a| && ParentAt(children, b, j, i - |a|);
        ParentBehind(children, a, b, j, i - |a|);
      }
    }
  }

  /** A node above the run of its own children. */
  lemma TreeOrderUnder(children: map<int, seq<int>>, id: int, depth: nat, b: seq<Entry>)
    requires id in children && TreeOrder(children, b, depth + 1)
    requires forall i :: 0 <= i < |b| && b[i].depth == depth + 1 ==> b[i].endpointId in children[id]
    ensures TreeOrder(children, [Entry(id, depth)] + b, depth)
  {
    var a := [Entry(id, depth)];
    var o := a + b;
    forall i | 0 <= i < |b|
      ensures o[i + 1] == b[i] && b[i].depth > depth && HasParent(children, o, i + 1)
    {
      if b[i].depth == depth + 1 {
        assert forall k :: 0 < k < i + 1 ==> o[k] == b[k - 1];
        assert ParentAt(children, o, 0, i + 1);
      } else {
        var j: nat :| j < i && ParentAt(children, b, j, i);
        ParentBehind(children, a, b, j, i);
      }
    }
    forall i | 0 <= i < |o|
      ensures o[i].depth >= depth && (o[i].depth > depth ==> HasParent(children, o, i))
    {
      if i > 0 {
        assert o[i - 1 + 1] == b[i - 1];
      }
    }
  }

  /** What a stretch of the traversal appends: newly visited endpoints, once each, in tree order. */
  predicate Appends(children: map<int, seq<int>>, top: set<int>, depth: nat, w: Walk, r: Walk, b: seq<Entry>) {
    && r.ordered == w.ordered + b
    && TreeOrder(children, b, depth)
    && (forall i :: 0 <= i < |b| ==> b[i].depth == depth ==> b[i].endpointId in top)
    && (forall i :: 0 <= i < |b| ==> b[i].endpointId in r.visited && b[i].endpointId !in w.visited)
    && (forall i, j :: 0 <= i < j < |b| ==> b[i].endpointId != b[j].endpointId)
    && (forall id :: id in r.visited && id !in w.visited ==> exists i :: 0 <= i < |b| && b[i].endpointId == id)
  }

  lemma {:induction false} VisitAppends(children: map<int, seq<int>>, id: int, depth: nat, w: Walk) returns (b: seq<Entry>)
    requires Closed(children) && id in children
    ensures Appends(children, {id}, depth, w, Visit(children, id, depth, w), b)
    decreases Unvisited(children, w), 0
  {
    if id in w.visited {
      b := [];
    } else {
      var inner := Walk(w.visited + {id}, w.ordered + [Entry(id, depth)]);
      VisitingShrinks(children, w.visited, inner.visited);
      var below := VisitAllAppends(children, children[id], depth + 1, inner);
      b := [Entry(id, depth)] + below;
      UnderAppends(children, id, depth, w, Visit(children, id, depth, w), below);
    }
  }

  lemma UnderAppends(children: map<int, seq<int>>, id: int, depth: nat, w: Walk, r: Walk, below: seq<Entry>)
    requires id in children && id !in w.visited && w.visited + {id} <= r.visited
    requires Appends(children, Elements(children[id]), depth + 1,
                     Walk(w.visited + {id}, w.ordered + [Entry(id, depth)]), r, below)
    ensures Appends(children, {id}, depth, w, r, [Entry(id, depth)] + below)
  {
    hide HasParent;
    TreeOrderUnder(children, id, depth, below);
    assert forall i :: 0 <= i < |below| ==> below[i].depth >= depth + 1;
    hide TreeOrder;
    var b := [Entry(id, depth)] + below;
    assert r.ordered == w.ordered + b;
    assert forall i :: 0 < i < |b| ==> b[i] == below[i - 1];
    forall x | x in r.visited && x !in w.visited
      ensures exists i :: 0 <= i < |b| && b[i].endpointId == x
    {
      if x == id {
        assert b[0].endpointId == x;
      } else {
        var i :| 0 <= i < |below| && below[i].endpointId == x;
        assert b[i + 1].endpointId == x;
      }
    }
  }

  lemma {:induction false} VisitAllAppends(children: map<int, seq<int>>, ids: seq<int>, depth: nat, w: Walk)
    returns (b: seq<Entry>)
    requires Closed(children) && forall id :: id in ids ==> id in children
    ensures Appends(children, Elements(ids), depth, w, VisitAll(children, ids, depth, w), b)
    decreases Unvisited(children, w), |ids| + 1
  {
    if ids == [] {
      b := [];
    } else {
      var first := Visit(children, ids[0], depth, w);
      VisitingShrinks(children, w.visited, first.visited);
      var b1 := VisitAppends(children, ids[0], depth, w);
      var b2 := VisitAllAppends(children, ids[1..], depth, first);
      b := b1 + b2;
      AppendsConcat(children, {ids[0]}, Elements(ids[1..]), depth, w, first, VisitAll(children, ids, depth, w), b1, b2);
      assert {ids[0]} + Elements(ids[1..]) == Elements(ids);
    }
  }

  lemma AppendsConcat(children: map<int, seq<int>>, t1: set<int>, t2: set<int>, depth: nat,
                      w: Walk, m: Walk, r: Walk, b1: seq<Entry>, b2: seq<Entry>)
    requires Appends(children, t1, depth, w, m, b1) && Appends(children, t2, depth, m, r, b2)
    requires w.visited <= m.visited <= r.visited
    ensures Appends(children, t1 + t2, depth, w, r, b1 + b2)
  {
    hide TreeOrder;
    TreeOrderConcat(children, b1, b2, depth);
    var b := b1 + b2;
    forall x | x in r.visited && x !in w.visited
      ensures exists i :: 0 <= i < |b| && b[i].endpointId == x
    {
      if x in m.visited {
        var i :| 0 <= i < |b1| && b1[i].endpointId == x;
        assert b[i].endpointId == x;
      } else {
        var i :| 0 <= i < |b2| && b2[i].endpointId == x;
        assert b[|b1| + i].endpointId == x;
      }
    }
    assert r.ordered == w.ordered + b;
  }

  // ----- The whole function -----

  function Parts(raw: map<int, seq<int>>, ids: seq<int>): (parts: map<int, seq<int>>)
    ensures parts.Keys == Elements(ids) && Closed(parts)
  {
    map id | id in ids :: OwnParts(if id in raw then raw[id] else [], Elements(ids), id)
  }

  function Children(parts: map<int, seq<int>>): (children: map<int, seq<int>>)
    requires Closed(parts)
    ensures children.Keys == parts.Keys && Closed(children)
  {
    map id | id in parts :: DirectChildren(parts, id)
  }

  predicate IsChild(children: map<int, seq<int>>, id: int) {
    exists parent :: parent in children && id in children[parent]
  }

  function KeepRoots(children: map<int, seq<int>>, ids: seq<int>): (r: seq<int>)
    ensures forall id :: id in r <==> id in ids && !IsChild(children, id)
  {
    if ids == [] then []
    else (if IsChild(children, ids[0]) then [] else [ids[0]]) + KeepRoots(children, ids[1..])
  }

  /** The roots first, then whatever cyclic data left unreached. */
  function WalkAll(raw: map<int, seq<int>>, ids: seq<int>): Walk {
    var children := Children(Parts(raw, ids));
    var fromRoots := VisitAll(children, Sort(KeepRoots(children, ids)), 0, Walk({}, []));
    VisitAll(children, Sort(ids), 0, fromRoots)
  }

  function TreeOf(raw: map<int, seq<int>>, ids: seq<int>): seq<Entry> {
    WalkAll(raw, ids).ordered
  }

  lemma {:induction false} StaysInside(children: map<int, seq<int>>, id: int, depth: nat, w: Walk)
    requires Closed(children) && id in children && w.visited <= children.Keys
    ensures Visit(children, id, depth, w).visited <= children.Keys
    decreases Unvisited(children, w), 0
  {
    if id !in w.visited {
      VisitingShrinks(children, w.visited, w.visited + {id});
      AllStayInside(children, children[id], depth + 1, Walk(w.visited + {id}, w.ordered + [Entry(id, depth)]));
    }
  }

  lemma {:induction false} AllStayInside(children: map<int, seq<int>>, ids: seq<int>, depth: nat, w: Walk)
    requires Closed(children) && w.visited <= children.Keys && forall id :: id in ids ==> id in children
    ensures VisitAll(children, ids, depth, w).visited <= children.Keys
    decreases Unvisited(children, w), |ids| + 1
  {
    if ids != [] {
      var first := Visit(children, ids[0], depth, w);
      VisitingShrinks(children, w.visited, first.visited);
      StaysInside(children, ids[0], depth, w);
      AllStayInside(children, ids[1..], depth, first);
    }
  }

  /**
   For arbitrary PartsLists, cyclic ones included: every endpoint comes exactly once, and
   every entry below the top level is a direct child of the nearest entry one level up
   that precedes it.
   */
  lemma AnyInputTreeOrder(raw: map<int, seq<int>>, ids: seq<int>)
    ensures var o := TreeOf(raw, ids);
            && TreeOrder(Children(Parts(raw, ids)), o, 0)
            && (forall id :: id in ids <==> exists i :: 0 <= i < |o| && o[i].endpointId == id)
            && (forall i, j :: 0 <= i < j < |o| ==> o[i].endpointId != o[j].endpointId)
  {
    hide TreeOrder, VisitAll, Appends, Children, Parts, Sort, KeepRoots, Elements;
    var children := Children(Parts(raw, ids));
    var roots, all, start := Sort(KeepRoots(children, ids)), Sort(ids), Walk({}, []);
    ListsAreInside(raw, ids);
    var fromRoots := VisitAll(children, roots, 0, start);
    var w := VisitAll(children, all, 0, fromRoots);
    var b1 := VisitAllAppends(children, roots, 0, start);
    var b2 := VisitAllAppends(children, all, 0, fromRoots);
    AppendsConcat(children, Elements(roots), Elements(all), 0, start, fromRoots, w, b1, b2);
    FromNothing(children, Elements(roots) + Elements(all), w, b1 + b2);
    AllStayInside(children, roots, 0, start);
    AllStayInside(children, all, 0, fromRoots);
  }

  /** The lists that are walked name endpoints only. */
  lemma ListsAreInside(raw: map<int, seq<int>>, ids: seq<int>)
    ensures var children := Children(Parts(raw, ids));
            && children.Keys == Elements(ids)
            && (forall id :: id in ids <==> id in children)
            && (forall id :: id in Sort(ids) <==> id in ids)
            && (forall id :: id in Sort(KeepRoots(children, ids)) ==> id in children)
  {
    hide Children, Parts, Sort, KeepRoots;
  }

  /** What a walk from nothing appends is all it visited. */
  lemma FromNothing(children: map<int, seq<int>>, top: set<int>, w: Walk, b: seq<Entry>)
    requires Appends(children, top, 0, Walk({}, []), w, b)
    ensures w.ordered == b && TreeOrder(children, b, 0)
    ensures forall id :: id in w.visited <==> exists i :: 0 <= i < |b| && b[i].endpointId == id
    ensures forall i, j :: 0 <= i < j < |b| ==> b[i].endpointId != b[j].endpointId
  {
    hide TreeOrder;
    assert [] + b == b;
  }
}
