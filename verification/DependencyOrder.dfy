/** Orderings of a dependency graph: the least one, and cycles as the only obstacle. */
module DependencyOrder {
  import opened Basics
  import opened Names

  /** For each loaded name, the loaded names it must come after. */
  type Graph = map<string, seq<string>>

  ghost predicate Closed(g: Graph)
  {
    forall n :: n in g ==> NoDup(g[n]) && forall d :: d in g[n] ==> d in g
  }

  /** `n` is loaded, not placed yet, and everything it depends on is. */
  ghost predicate ReadyAfter(g: Graph, done: seq<string>, n: string)
  {
    n in g && n !in done && forall d :: d in g[n] ==> d in done
  }

  /** Every loaded name once, dependencies first. */
  ghost predicate Ordering(g: Graph, s: seq<string>)
  {
    && (forall k :: 0 <= k < |s| ==> ReadyAfter(g, s[..k], s[k]))
    && (forall n :: n in g ==> n in s)
  }

  /** Each name is the least of those that are ready. */
  ghost predicate Greedy(g: Graph, s: seq<string>)
  {
    forall k :: 0 <= k < |s| ==>
      ReadyAfter(g, s[..k], s[k]) && forall m :: ReadyAfter(g, s[..k], m) ==> !Less(m, s[k])
  }

  ghost predicate Finished(g: Graph, s: seq<string>) { Greedy(g, s) && forall n :: !ReadyAfter(g, s, n) }

  /** `a` comes before `b` in the order of sequences of names. */
  ghost predicate Before(a: seq<string>, b: seq<string>)
  {
    exists k :: 0 <= k < |a| && k < |b| && a[..k] == b[..k] && Less(a[k], b[k])
  }

  ghost predicate LeastOrdering(g: Graph, s: seq<string>)
  {
    Ordering(g, s) && forall t :: Ordering(g, t) && t != s ==> Before(s, t)
  }

  lemma ReadyDistinct(g: Graph, s: seq<string>)
    requires forall k :: 0 <= k < |s| ==> ReadyAfter(g, s[..k], s[k])
    ensures NoDup(s) && forall n :: n in s ==> n in g && forall d :: d in g[n] ==> d in s
  {
    forall i, j | 0 <= i < j < |s| ensures s[i] != s[j] {
      assert s[i] == s[..j][i];
    }
    forall n | n in s ensures n in g && forall d :: d in g[n] ==> d in s {
      var k :| 0 <= k < |s| && s[k] == n;
      assert forall d :: d in s[..k] ==> d in s;
    }
  }

  /** Where two sequences first differ. */
  lemma {:induction false} FirstDifference(a: seq<string>, b: seq<string>) returns (k: nat)
    requires a != b
    ensures k <= |a| && k <= |b| && a[..k] == b[..k]
    ensures k < |a| && k < |b| ==> a[k] != b[k]
    ensures k == |a| || k == |b| ==> |a| != |b|
  {
    if a == [] || b == [] || a[0] != b[0] {
      k := 0;
    } else {
      assert a == [a[0]] + a[1..] && b == [b[0]] + b[1..];
      var j := FirstDifference(a[1..], b[1..]);
      k := j + 1;
      assert a[..k] == [a[0]] + a[1..][..j] && b[..k] == [b[0]] + b[1..][..j];
    }
  }

  lemma OrderingMembers(g: Graph, s: seq<string>)
    requires Ordering(g, s)
    ensures NoDup(s) && forall n :: n in s <==> n in g
  {
    ReadyDistinct(g, s);
  }

  /** Orderings cannot be proper prefixes of each other. */
  lemma OrderingNotPrefix(g: Graph, s: seq<string>, t: seq<string>)
    requires Ordering(g, s) && Ordering(g, t) && |s| < |t|
    ensures s != t[..|s|]
  {
    OrderingMembers(g, s);
    OrderingMembers(g, t);
    var n := t[|s|];
    assert n in t && n in s;
    assert n !in t[..|s|];
  }

  /** Always taking the least ready name gives the least ordering there is. */
  lemma GreedyIsLeast(g: Graph, s: seq<string>)
    requires Finished(g, s) && forall n :: n in g ==> n in s
    ensures LeastOrdering(g, s)
  {
    forall t | Ordering(g, t) && t != s ensures Before(s, t) {
      var k := FirstDifference(s, t);
      if |s| < |t| {
        OrderingNotPrefix(g, s, t);
      } else if |t| < |s| {
        OrderingNotPrefix(g, t, s);
      }
      assert s[..|s|] == s && t[..|t|] == t;
      assert k < |s| && k < |t|;
      assert ReadyAfter(g, t[..k], t[k]);
      LessTotal(s[k], t[k]);
    }
  }

  lemma BeforeAsymmetric(a: seq<string>, b: seq<string>)
    requires Before(a, b)
    ensures !Before(b, a)
  {
    var j :| 0 <= j < |a| && j < |b| && a[..j] == b[..j] && Less(a[j], b[j]);
    forall k | 0 <= k < |a| && k < |b| ensures !(b[..k] == a[..k] && Less(b[k], a[k])) {
      LessTotal(a[k], b[k]);
      LessTotal(a[j], b[j]);
      if k < j {
        assert a[..j][k] == a[k] && b[..j][k] == b[k];
      } else if j < k {
        assert a[..k][j] == a[j] && b[..k][j] == b[j];
      }
    }
  }

  /** There is at most one least ordering. */
  lemma LeastUnique(g: Graph, s: seq<string>, t: seq<string>)
    requires LeastOrdering(g, s) && LeastOrdering(g, t)
    ensures s == t
  {
    if Before(s, t) {
      BeforeAsymmetric(s, t);
    }
  }

  // ---- Cycles ----------------------------------------------------------------------

  /** A path along dependencies that ends where it began. */
  ghost predicate Cycle(g: Graph, c: seq<string>)
  {
    && |c| >= 2 && c[0] == c[|c| - 1]
    && (forall i :: 0 <= i < |c| ==> c[i] in g)
    && (forall i :: 0 <= i < |c| - 1 ==> c[i + 1] in g[c[i]])
  }

  ghost predicate DependsWithin(g: Graph, nodes: set<string>, n: string)
  {
    n in g && exists d :: d in g[n] && d in nodes
  }

  /** Every node has a dependency among the nodes. */
  ghost predicate Stuck(g: Graph, nodes: set<string>)
  {
    forall n {:trigger DependsWithin(g, nodes, n)} :: n in nodes ==> DependsWithin(g, nodes, n)
  }

  /** What Kahn's algorithm leaves over is stuck. */
  lemma LeftoverStuck(g: Graph, s: seq<string>)
    requires Closed(g) && Finished(g, s)
    ensures Stuck(g, set n | n in g && n !in s)
  {
    var nodes := set n | n in g && n !in s;
    forall n | n in nodes ensures DependsWithin(g, nodes, n) {
      assert !ReadyAfter(g, s, n);
      var d :| d in g[n] && d !in s;
      assert d in nodes;
    }
  }

  /** A graph with an ordering has no cycle: along a cycle positions would fall for ever. */
  lemma OrderingExcludesCycle(g: Graph, s: seq<string>, c: seq<string>)
    requires Ordering(g, s)
    ensures !Cycle(g, c)
  {
    if Cycle(g, c) {
      OrderingMembers(g, s);
      PositionsFall(g, s, c, |c| - 1);
    }
  }

  ghost function Position(s: seq<string>, n: string): (k: nat)
    requires n in s
    ensures k < |s| && s[k] == n
  {
    var k :| 0 <= k < |s| && s[k] == n; k
  }

  lemma {:induction false} PositionsFall(g: Graph, s: seq<string>, c: seq<string>, i: nat)
    requires Ordering(g, s) && NoDup(s) && |c| >= 2 && 0 < i < |c|
    requires forall k :: 0 <= k < |c| ==> c[k] in g
    requires forall k :: 0 <= k < |c| - 1 ==> c[k + 1] in g[c[k]]
    ensures Position(s, c[i]) < Position(s, c[0])
  {
    var k := Position(s, c[i - 1]);
    assert ReadyAfter(g, s[..k], s[k]) && c[i] in s[..k];
    var j :| 0 <= j < k && s[j] == c[i];
    assert Position(s, c[i]) == j;
    if i > 1 {
      PositionsFall(g, s, c, i - 1);
    }
  }
}
