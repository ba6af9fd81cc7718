/** Cycle detection in the task dependency graph by depth-first search over a shared
    visited set and a set of the nodes on the current path. */
module DependencyGraph {

  type Edges = set<(nat, nat)>

  function Successors(edges: Edges, v: nat): set<nat> {
    set e | e in edges && e.0 == v :: e.1
  }

  lemma SuccessorEdge(edges: Edges, v: nat, w: nat)
    ensures w in Successors(edges, v) <==> (v, w) in edges
  {
    if (v, w) in edges { assert (v, w).1 in Successors(edges, v); }
  }

  ghost predicate IsWalk(edges: Edges, p: seq<nat>) {
    |p| > 0 && forall i, j | 0 <= i < j < |p| && j == i + 1 :: (p[i], p[j]) in edges
  }

  ghost predicate IsCycle(edges: Edges, p: seq<nat>) {
    IsWalk(edges, p) && |p| > 1 && p[0] == p[|p| - 1]
  }

  ghost predicate Cyclic(edges: Edges) {
    exists p :: IsCycle(edges, p)
  }

  // ---------------------------------------------------------------- finished nodes

  /** Every node of `order` leads only to nodes before it. */
  ghost predicate Ordered(edges: Edges, order: seq<nat>) {
    forall i, w | 0 <= i < |order| && (order[i], w) in edges :: w in order[..i]
  }

  lemma OrderedAppend(edges: Edges, order: seq<nat>, v: nat)
    requires Ordered(edges, order) && forall w | (v, w) in edges :: w in order
    ensures Ordered(edges, order + [v])
  {
    var longer := order + [v];
    forall i, w | 0 <= i < |longer| && (longer[i], w) in edges ensures w in longer[..i] {
      assert longer[..i] == if i < |order| then order[..i] else order;
    }
  }

  /** From an ordered node the positions only go down, so no walk comes back. */
  lemma {:induction false} WalkDescends(edges: Edges, order: seq<nat>, p: seq<nat>, i: nat)
    requires Ordered(edges, order) && IsWalk(edges, p) && i < |order| && p[0] == order[i]
    ensures |p| > 1 ==> p[|p| - 1] in order[..i]
    decreases |p|
  {
    if |p| > 1 {
      assert (p[0], p[1]) in edges;
      var j :| 0 <= j < i && order[j] == p[1];
      var rest := p[1..];
      forall k, l | 0 <= k < l < |rest| && l == k + 1 ensures (rest[k], rest[l]) in edges {
        assert (p[k + 1], p[l + 1]) in edges;
      }
      WalkDescends(edges, order, rest, j);
      assert order[..j] <= order[..i];
    }
  }

  lemma {:induction false} OrderedIsAcyclic(edges: Edges, order: seq<nat>, p: seq<nat>)
    requires Ordered(edges, order) && IsCycle(edges, p)
    ensures p[0] !in order
  {
    if p[0] in order {
      FirstOccurrence(order, p[0]);
      var i :| 0 <= i < |order| && order[i] == p[0] && p[0] !in order[..i];
      WalkDescends(edges, order, p, i);
    }
  }

  lemma {:induction false} FirstOccurrence(s: seq<nat>, x: nat)
    requires x in s
    ensures exists i :: 0 <= i < |s| && s[i] == x && x !in s[..i]
    decreases |s|
  {
    var n := |s| - 1;
    if x in s[..n] {
      FirstOccurrence(s[..n], x);
      var i :| 0 <= i < n && s[..n][i] == x && x !in s[..n][..i];
      assert s[..i] == s[..n][..i];
    } else {
      assert s == s[..n] + [s[n]];
    }
  }

  // ---------------------------------------------------------------- the search

  /** The current path is a walk over the nodes on the stack, and the visited nodes off
      the stack are finished: ordered, and none of them leads back to a cycle. */
  ghost predicate Consistent(edges: Edges, visited: set<nat>, inStack: set<nat>, path: seq<nat>, order: seq<nat>) {
    && (path == [] || IsWalk(edges, path))
    && (forall v :: v in inStack <==> v in path)
    && (forall i, j | 0 <= i < j < |path| :: path[i] != path[j])
    && (forall v :: v in visited <==> v in path || v in order)
    && (forall v | v in order :: v !in path)
    && Ordered(edges, order)
  }

  class CycleSearch {
    const edges: Edges
    var visited: set<nat>
    var inStack: set<nat>

    constructor (edges: Edges)
      ensures this.edges == edges && visited == {} && inStack == {}
    {
      this.edges := edges;
      visited, inStack := {}, {};
    }

    method Dfs(current: nat, ghost nodes: set<nat>, ghost path: seq<nat>, ghost order: seq<nat>)
      returns (found: bool, ghost order': seq<nat>)
      requires Consistent(edges, visited, inStack, path, order)
      requires path != [] ==> (path[|path| - 1], current) in edges
      requires current in nodes && visited <= nodes && forall e | e in edges :: e.1 in nodes
      modifies this
      ensures found ==> Cyclic(edges)
      ensures !found ==>
                && Consistent(edges, visited, inStack, path, order')
                && old(visited) <= visited <= nodes
                && inStack == old(inStack)
                && order <= order' && current in order'
      decreases nodes - visited
    {
      order' := order;
      if current in inStack {
        PathCloses(edges, path, current);
        return true, order;
      }
      if current in visited {
        return false, order;
      }
      visited := visited + {current};
      inStack := inStack + {current};
      ghost var longer := path + [current];
      WalkExtends(edges, path, current);
      var remaining := Successors(edges, current);
      while remaining != {}
        invariant Consistent(edges, visited, inStack, longer, order')
        invariant old(visited) + {current} <= visited <= nodes
        invariant inStack == old(inStack) + {current}
        invariant order <= order' && remaining <= Successors(edges, current)
        invariant forall w | w in Successors(edges, current) && w !in remaining :: w in order'
        decreases remaining
      {
        var next :| next in remaining;
        SuccessorEdge(edges, current, next);
        found, order' := Dfs(next, nodes, longer, order');
        if found {
          return true, order';
        }
        remaining := remaining - {next};
      }
      inStack := inStack - {current};
      forall w | (current, w) in edges ensures w in order' {
        SuccessorEdge(edges, current, w);
      }
      Finished(edges, visited, inStack, path, order', current);
      order' := order' + [current];
      found := false;
    }

    /** Whether a cycle can be reached from one of `nodes`, each tried in turn. */
    method HasCycle(nodes: seq<nat>, ghost universe: set<nat>) returns (found: bool)
      requires visited == {} && inStack == {}
      requires forall e | e in edges :: e.1 in universe
      requires forall v | v in nodes :: v in universe
      modifies this
      ensures found ==> Cyclic(edges)
      ensures !found ==> forall p | IsCycle(edges, p) :: p[0] !in nodes
    {
      ghost var order: seq<nat> := [];
      for i := 0 to |nodes|
        invariant Consistent(edges, visited, inStack, [], order) && visited <= universe
        invariant forall k | 0 <= k < i :: nodes[k] in order
      {
        found, order := Dfs(nodes[i], universe, [], order);
        if found {
          return true;
        }
      }
      forall p | IsCycle(edges, p) ensures p[0] !in nodes {
        OrderedIsAcyclic(edges, order, p);
      }
      found := false;
    }
  }

  lemma PathCloses(edges: Edges, path: seq<nat>, current: nat)
    requires IsWalk(edges, path) && current in path && (path[|path| - 1], current) in edges
    ensures Cyclic(edges)
  {
    var i :| 0 <= i < |path| && path[i] == current;
    var cycle := path[i..] + [current];
    forall k, l | 0 <= k < l < |cycle| && l == k + 1 ensures (cycle[k], cycle[l]) in edges {
      if l < |path| - i { assert cycle[k] == path[i + k] && cycle[l] == path[i + l]; }
    }
    assert IsCycle(edges, cycle);
  }

  lemma WalkExtends(edges: Edges, path: seq<nat>, current: nat)
    requires path == [] || (IsWalk(edges, path) && (path[|path| - 1], current) in edges)
    ensures IsWalk(edges, path + [current])
  {
    var longer := path + [current];
    forall k, l | 0 <= k < l < |longer| && l == k + 1 ensures (longer[k], longer[l]) in edges {
    }
  }

  lemma Finished(edges: Edges, visited: set<nat>, inStack: set<nat>, path: seq<nat>, order: seq<nat>, current: nat)
    requires path == [] || IsWalk(edges, path)
    requires forall v :: v in inStack <==> v in path
    requires forall i, j | 0 <= i < j < |path + [current]| :: (path + [current])[i] != (path + [current])[j]
    requires forall v :: v in visited <==> v in path + [current] || v in order
    requires forall v | v in order :: v !in path + [current]
    requires Ordered(edges, order) && forall w | (current, w) in edges :: w in order
    ensures Consistent(edges, visited, inStack, path, order + [current])
  {
    OrderedAppend(edges, order, current);
    var longer := path + [current];
    forall i | 0 <= i < |path| ensures path[i] != current {
      assert longer[i] != longer[|path|];
    }
    forall i, j | 0 <= i < j < |path| ensures path[i] != path[j] {
      assert longer[i] != longer[j];
    }
  }
}
