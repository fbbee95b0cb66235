/** The depth-first search that names a dependency cycle. */
module CycleSearch {
  import opened Basics
  import opened DependencyOrder

  /** The first place of `n` in `s`. */
  function IndexOf(s: seq<string>, n: string): (k: nat)
    requires n in s
    ensures k < |s| && s[k] == n
  {
    if s[0] == n then 0 else IndexOf(s[1..], n) + 1
  }

  /** A walk along dependencies. */
  ghost predicate Walk(g: Graph, path: seq<string>)
  {
    && (forall i :: 0 <= i < |path| ==> path[i] in g)
    && (forall i :: 0 <= i < |path| - 1 ==> path[i + 1] in g[path[i]])
  }

  lemma WalkOn(g: Graph, path: seq<string>, n: string)
    requires Walk(g, path) && n in g && (path == [] || n in g[path[|path| - 1]])
    ensures Walk(g, path + [n])
  {
  }

  /** A walk that comes back to one of its own nodes has closed a cycle. */
  lemma Closes(g: Graph, path: seq<string>, n: string, k: nat)
    requires Walk(g, path + [n]) && k < |path| && path[k] == n
    ensures Cycle(g, path[k..] + [n])
  {
    var c, s := path[k..] + [n], path + [n];
    assert forall i :: 0 <= i < |c| ==> c[i] == s[k + i];
  }

  /** The search has never turned back: everything visited is still on the path, and `node` may come next. */
  ghost predicate FirstDescent(g: Graph, nodes: set<string>, visited: set<string>, path: seq<string>, node: string)
  {
    && Stuck(g, nodes) && node in nodes
    && Walk(g, path + [node]) && NoDup(path)
    && forall n :: n in visited <==> n in path
  }

  lemma DescentCloses(g: Graph, nodes: set<string>, visited: set<string>, path: seq<string>, node: string)
    requires FirstDescent(g, nodes, visited, path, node) && node in visited
    ensures Walk(g, path) && node in path && Cycle(g, path[IndexOf(path, node)..] + [node])
  {
    assert forall i :: 0 <= i < |path| ==> path[i] == (path + [node])[i];
    Closes(g, path, node, IndexOf(path, node));
  }

  lemma DescentGoesOn(g: Graph, nodes: set<string>, visited: set<string>, path: seq<string>, node: string, dep: string)
    requires FirstDescent(g, nodes, visited, path, node) && node !in visited
    requires node in g && dep in g[node] && dep in nodes
    ensures FirstDescent(g, nodes, visited + {node}, path + [node], dep)
  {
    assert DependsWithin(g, nodes, dep);
    WalkOn(g, path + [node], dep);
  }

  lemma NoDeadEnd(g: Graph, nodes: set<string>, visited: set<string>, path: seq<string>, node: string)
    requires FirstDescent(g, nodes, visited, path, node)
    ensures node in g && exists i :: 0 <= i < |g[node]| && g[node][i] in nodes
  {
    assert DependsWithin(g, nodes, node);
  }

  /** The cycle is the end of `path` from the node it comes back to. */
  ghost predicate ClosedOn(path: seq<string>, cycle: seq<string>)
  {
    cycle != [] &&
    var n := cycle[|cycle| - 1];
    n in path && cycle == path[IndexOf(path, n)..] + [n]
  }

  class CycleFinder {
    const g: Graph
    const nodes: set<string>
    var visited: set<string>
    var path: seq<string>

    constructor (g: Graph, nodes: set<string>)
      ensures this.g == g && this.nodes == nodes && visited == {} && path == []
    {
      this.g, this.nodes := g, nodes;
      visited, path := {}, [];
    }

    method Dfs(node: string) returns (found: Option<seq<string>>)
      requires node in nodes
      modifies this
      ensures visited >= old(visited)
      ensures found.None? ==> path == old(path)
      ensures FirstDescent(g, nodes, old(visited), old(path), node) ==>
        && found.Some? && Cycle(g, found.value) && ClosedOn(path, found.value)
        && Walk(g, path) && NoDup(path)
        && (if node in old(visited) then path == old(path) else old(path) + [node] <= path)
      decreases nodes - visited
    {
      ghost var seen, before := visited, path;
      ghost var first := FirstDescent(g, nodes, seen, before, node);
      if node in visited {
        if first {
          DescentCloses(g, nodes, seen, before, node);
        }
        var idx := if node in path then IndexOf(path, node) else 0;
        return Some(path[idx..] + [node]);
      }
      visited := visited + {node};
      path := path + [node];
      var deps := if node in g then g[node] else [];
      for i := 0 to |deps|
        invariant visited >= seen + {node} && path == before + [node]
        invariant first ==> visited == seen + {node} && forall k :: 0 <= k < i ==> deps[k] !in nodes
      {
        if deps[i] in nodes {
          if first {
            DescentGoesOn(g, nodes, seen, before, node, deps[i]);
          }
          found := Dfs(deps[i]);
          if found.Some? {
            return;
          }
        }
      }
      if first {
        NoDeadEnd(g, nodes, seen, before, node);
      }
      path := path[..|path| - 1];
      return None;
    }
  }

  /** The cycle closes a simple walk that begins at `start`. */
  ghost predicate FromStart(g: Graph, path: seq<string>, start: string, cycle: seq<string>)
  {
    [start] <= path && Walk(g, path) && NoDup(path) && ClosedOn(path, cycle)
  }

  /** One cycle among `nodes`, starting from each of them in turn; all of them when no start closes one.
      On stuck nodes the first start reaches the cycle: no other start is tried, and no fallback is needed. */
  method FindCycle(g: Graph, nodes: set<string>, order: seq<string>) returns (cycle: seq<string>)
    requires forall n :: n in order <==> n in nodes
    ensures nodes != {} && Stuck(g, nodes) ==>
      order != [] && Cycle(g, cycle) && exists path :: FromStart(g, path, order[0], cycle)
  {
    var finder := new CycleFinder(g, nodes);
    for i := 0 to |order|
      invariant Stuck(g, nodes) ==> i == 0
    {
      finder.visited, finder.path := {}, [];
      assert order[i] in order;
      assert Stuck(g, nodes) ==> DependsWithin(g, nodes, order[i]);
      assert Stuck(g, nodes) ==> FirstDescent(g, nodes, {}, [], order[i]);
      var found := finder.Dfs(order[i]);
      if found.Some? {
        assert Stuck(g, nodes) ==> FromStart(g, finder.path, order[0], found.value);
        return found.value;
      }
    }
    assert nodes != {} && Stuck(g, nodes) ==> |order| > 0 by {
      if n :| n in nodes {
        assert n in order;
      }
    }
    return order;
  }
}
