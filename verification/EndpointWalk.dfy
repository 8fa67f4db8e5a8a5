/**
 `getEndpointTree` as it runs: loops that fill the `children` map and the `hasParent` set,
 and the recursive `visit` closure over `visited` and `ordered`.
 */
module EndpointWalk {
  import opened EndpointTree

  class Visitor {
    const children: map<int, seq<int>>
    var visited: set<int>
    var ordered: seq<Entry>

    constructor (children: map<int, seq<int>>)
      ensures this.children == children && State() == Walk({}, [])
    {
      this.children, visited, ordered := children, {}, [];
    }

    function State(): Walk
      reads this
    {
      Walk(visited, ordered)
    }

    method VisitFrom(id: int, depth: nat)
      requires Closed(children) && id in children
      modifies this
      ensures State() == Visit(children, id, depth, old(State()))
      decreases Unvisited(children, State()), 0
    {
      if id in visited {
        return;
      }
      VisitingShrinks(children, visited, visited + {id});
      visited := visited + {id};
      ordered := ordered + [Entry(id, depth)];
      VisitEach(children[id], depth + 1);
    }

    /** The loops `for (… of …) visit(…)`. */
    method VisitEach(ids: seq<int>, depth: nat)
      requires Closed(children) && forall id :: id in ids ==> id in children
      modifies this
      ensures State() == VisitAll(children, ids, depth, old(State()))
      decreases Unvisited(children, State()), 1
    {
      for i := 0 to |ids|
        invariant old(visited) <= visited
        invariant VisitAll(children, ids[i..], depth, State()) == VisitAll(children, ids, depth, old(State()))
      {
        VisitingShrinks(children, old(visited), visited);
        assert ids[i..][1..] == ids[i + 1..];
        VisitFrom(ids[i], depth);
      }
    }
  }

  /** The loop that fills `children` and `hasParent`. */
  method CollectChildren(parts: map<int, seq<int>>, ids: seq<int>)
    returns (children: map<int, seq<int>>, hasParent: set<int>)
    requires Closed(parts) && parts.Keys == Elements(ids)
    ensures children == Children(parts)
    ensures forall c :: c in hasParent <==> IsChild(children, c)
  {
    hide DirectChildren, Closed;
    children, hasParent := map[], {};
    for i := 0 to |ids|
      invariant children == map id | id in ids[..i] :: DirectChildren(parts, id)
      invariant forall c :: c in hasParent <==> IsChild(children, c)
    {
      var id := ids[i];
      assert forall x :: x in ids[..i + 1] <==> x in ids[..i] || x == id;
      var directChildren := DirectChildren(parts, id);
      OneMoreParent(children, id, directChildren, hasParent);
      children := children[id := directChildren];
      hasParent := hasParent + set c | c in directChildren;
    }
    assert ids[..|ids|] == ids;
  }

  lemma OneMoreParent(children: map<int, seq<int>>, id: int, direct: seq<int>, hasParent: set<int>)
    requires forall c :: c in hasParent <==> IsChild(children, c)
    requires id in children ==> children[id] == direct
    ensures var after, more := children[id := direct], hasParent + set x | x in direct;
            forall c :: c in more <==> IsChild(after, c)
  {
    var after, more := children[id := direct], hasParent + set x | x in direct;
    forall c
      ensures c in more <==> IsChild(after, c)
    {
      if IsChild(children, c) {
        var parent :| parent in children && c in children[parent];
        assert parent in after && c in after[parent];
      }
      if c in direct {
        assert c in after[id];
      }
    }
  }

  /** `endpointIds.filter(id => !hasParent.has(id))`. */
  method CollectRoots(children: map<int, seq<int>>, hasParent: set<int>, ids: seq<int>) returns (roots: seq<int>)
    requires forall c :: c in hasParent <==> IsChild(children, c)
    ensures roots == KeepRoots(children, ids)
  {
    hide IsChild, KeepRoots;
    roots := [];
    assert ids[0..] == ids;
    assert [] + KeepRoots(children, ids) == KeepRoots(children, ids);
    for i := 0 to |ids|
      invariant roots + KeepRoots(children, ids[i..]) == KeepRoots(children, ids)
    {
      KeepStep(children, ids, i);
      ghost var rest := KeepRoots(children, ids[i + 1..]);
      assert roots + [ids[i]] + rest == roots + ([ids[i]] + rest) && [] + rest == rest;
      if ids[i] !in hasParent {
        roots := roots + [ids[i]];
      }
    }
    NoneLeft(children, ids);
    assert roots + [] == roots;
  }

  lemma KeepStep(children: map<int, seq<int>>, ids: seq<int>, i: nat)
    requires i < |ids|
    ensures KeepRoots(children, ids[i..]) ==
            (if IsChild(children, ids[i]) then [] else [ids[i]]) + KeepRoots(children, ids[i + 1..])
  {
    assert ids[i..][1..] == ids[i + 1..];
  }

  lemma NoneLeft(children: map<int, seq<int>>, ids: seq<int>)
    ensures KeepRoots(children, ids[|ids|..]) == []
  {
  }

  method GetEndpointTree(raw: map<int, seq<int>>, ids: seq<int>) returns (result: seq<Entry>)
    ensures result == TreeOf(raw, ids)
  {
    var children, hasParent := CollectChildren(Parts(raw, ids), ids);
    var roots := CollectRoots(children, hasParent, ids);
    var visitor := new Visitor(children);
    visitor.VisitEach(Sort(roots), 0);
    visitor.VisitEach(Sort(ids), 0);
    result := visitor.ordered;
  }
}
