/** The cheap walk that decides whether a statement reads a scoped table outside the ORM:
  a pruned reachability search over a clause graph whose elements may be shared. */
module Walk {
  import opened Basics

  /** One clause element, as the walk sees it. */
  datatype Element = Element(
    orm: bool,                    // carries an ORM annotation
    selectable: int,              // the selectable of an aliased entity, or -1
    textual: bool,                // a scoped entity whose rows come from SQL text
    nestedDml: bool,              // an INSERT, UPDATE or DELETE on a scoped table
    scopedLeaf: bool,             // a plain scoped table or alias, or a column of one
    boundValue: bool,             // a bound parameter: no clause children
    children: seq<nat>)

  type Graph = seq<Element>

  predicate WellFormed(g: Graph)
  {
    forall i :: 0 <= i < |g| ==>
      -1 <= g[i].selectable < |g| && forall k :: 0 <= k < |g[i].children| ==> g[i].children[k] < |g|
  }

  /** The elements the walk goes on to from element `n`. */
  function Next(g: Graph, opaqueIds: set<nat>, n: nat): seq<nat>
    requires WellFormed(g) && n < |g|
  {
    var el := g[n];
    if el.orm then (if el.selectable >= 0 && el.selectable !in opaqueIds then [el.selectable] else [])
    else if n in opaqueIds || el.boundValue then []
    else el.children
  }

  /** A reference that has to be scoped. */
  predicate Hit(g: Graph, opaqueIds: set<nat>, root: nat, n: nat)
    requires WellFormed(g) && n < |g|
  {
    var el := g[n];
    || (n != root && el.nestedDml)
    || (el.orm && el.selectable >= 0 && el.selectable !in opaqueIds && el.textual)
    || (!el.orm && n !in opaqueIds && el.scopedLeaf)
  }

  /** `path` leads from `root` to its last element along unpruned edges. */
  ghost predicate PathFrom(g: Graph, opaqueIds: set<nat>, root: nat, path: seq<nat>)
    requires WellFormed(g)
  {
    && path != [] && path[0] == root
    && (forall i :: 0 <= i < |path| ==> path[i] < |g|)
    && (forall i :: 0 <= i < |path| - 1 ==> path[i + 1] in Next(g, opaqueIds, path[i]))
  }

  ghost predicate Reachable(g: Graph, opaqueIds: set<nat>, root: nat, n: nat)
    requires WellFormed(g)
  {
    exists path :: PathFrom(g, opaqueIds, root, path) && path[|path| - 1] == n
  }

  ghost predicate FindsHit(g: Graph, opaqueIds: set<nat>, root: nat)
    requires WellFormed(g)
  {
    exists n: nat :: n < |g| && Reachable(g, opaqueIds, root, n) && Hit(g, opaqueIds, root, n)
  }

  // ---- What the walk is for, by the fields of the elements -----------------------------

  /** What scoping has to see at element `n`: DML on a scoped table other than the statement itself, an entity of
      a scoped table whose rows come from SQL text, or a plain scoped table. */
  ghost predicate Reference(g: Graph, opaqueIds: set<nat>, root: nat, n: nat)
    requires n < |g|
  {
    || (g[n].nestedDml && n != root)
    || (g[n].orm && g[n].textual && g[n].selectable >= 0 && g[n].selectable !in opaqueIds)
    || (!g[n].orm && g[n].scopedLeaf && n !in opaqueIds)
  }

  /** An ORM element leads to its selectable and any other but a bound value to its children, opaque ones
      excepted. */
  ghost predicate Leads(g: Graph, opaqueIds: set<nat>, n: nat, k: nat)
    requires n < |g|
  {
    if g[n].orm then k == g[n].selectable && k !in opaqueIds
    else k in g[n].children && n !in opaqueIds && !g[n].boundValue
  }

  ghost predicate Unpruned(g: Graph, opaqueIds: set<nat>, root: nat, path: seq<nat>)
  {
    && path != [] && path[0] == root
    && (forall i :: 0 <= i < |path| ==> path[i] < |g|)
    && forall i :: 0 <= i < |path| - 1 ==> Leads(g, opaqueIds, path[i], path[i + 1])
  }

  /** An unpruned path leads from the root to a reference. */
  ghost predicate ReadsPlain(g: Graph, opaqueIds: set<nat>, root: nat)
  {
    exists path :: Unpruned(g, opaqueIds, root, path) && Reference(g, opaqueIds, root, path[|path| - 1])
  }

  lemma PathIsUnpruned(g: Graph, opaqueIds: set<nat>, root: nat, path: seq<nat>)
    requires WellFormed(g)
    ensures PathFrom(g, opaqueIds, root, path) <==> Unpruned(g, opaqueIds, root, path)
  {
    if forall i :: 0 <= i < |path| ==> path[i] < |g| {
      forall i | 0 <= i < |path| - 1
        ensures path[i + 1] in Next(g, opaqueIds, path[i]) <==> Leads(g, opaqueIds, path[i], path[i + 1])
      {
      }
    }
  }

  lemma HitIsReference(g: Graph, opaqueIds: set<nat>, root: nat, n: nat)
    requires WellFormed(g) && n < |g|
    ensures Hit(g, opaqueIds, root, n) <==> Reference(g, opaqueIds, root, n)
  {
  }

  lemma FindsReference(g: Graph, opaqueIds: set<nat>, root: nat)
    requires WellFormed(g)
    ensures FindsHit(g, opaqueIds, root) <==> ReadsPlain(g, opaqueIds, root)
  {
    forall path ensures PathFrom(g, opaqueIds, root, path) <==> Unpruned(g, opaqueIds, root, path) {
      PathIsUnpruned(g, opaqueIds, root, path);
    }
    forall n: nat | n < |g| ensures Hit(g, opaqueIds, root, n) <==> Reference(g, opaqueIds, root, n) {
      HitIsReference(g, opaqueIds, root, n);
    }
    if FindsHit(g, opaqueIds, root) {
      var n: nat :| n < |g| && Reachable(g, opaqueIds, root, n) && Hit(g, opaqueIds, root, n);
      var path :| PathFrom(g, opaqueIds, root, path) && path[|path| - 1] == n;
      assert Unpruned(g, opaqueIds, root, path);
    }
    if path :| Unpruned(g, opaqueIds, root, path) && Reference(g, opaqueIds, root, path[|path| - 1]) {
      assert PathFrom(g, opaqueIds, root, path);
      assert Reachable(g, opaqueIds, root, path[|path| - 1]);
    }
  }

  lemma ReachNext(g: Graph, opaqueIds: set<nat>, root: nat, n: nat, k: nat)
    requires WellFormed(g) && n < |g| && Reachable(g, opaqueIds, root, n) && k in Next(g, opaqueIds, n)
    ensures Reachable(g, opaqueIds, root, k)
  {
    var path :| PathFrom(g, opaqueIds, root, path) && path[|path| - 1] == n;
    assert PathFrom(g, opaqueIds, root, path + [k]);
  }

  /** A set that holds the root and all successors of its members holds all that is reachable. */
  lemma {:induction false} ClosedHoldsPath(g: Graph, opaqueIds: set<nat>, root: nat, closed: set<nat>, path: seq<nat>)
    requires WellFormed(g) && PathFrom(g, opaqueIds, root, path) && root in closed
    requires forall n, k :: n in closed && n < |g| && k in Next(g, opaqueIds, n) ==> k in closed
    ensures path[|path| - 1] in closed
  {
    if |path| > 1 {
      var front := path[..|path| - 1];
      assert PathFrom(g, opaqueIds, root, front) by {
        assert forall i :: 0 <= i < |front| ==> front[i] == path[i];
      }
      ClosedHoldsPath(g, opaqueIds, root, closed, front);
    }
  }

  ghost function Ids(n: nat): (r: set<nat>)
    ensures forall i: nat :: i in r <==> i < n
  {
    if n == 0 then {} else Ids(n - 1) + {n - 1}
  }

  /** Midway through the walk: everything on the stack is reachable, nothing seen is a
      reference, and what follows a seen element is seen or on the stack. */
  ghost predicate Walking(g: Graph, opaqueIds: set<nat>, root: nat, seen: set<nat>, stack: seq<nat>)
    requires WellFormed(g)
  {
    && seen <= Ids(|g|) && (root in seen || root in stack)
    && (forall n :: n in stack ==> n < |g| && Reachable(g, opaqueIds, root, n))
    && (forall n :: n in seen ==> !Hit(g, opaqueIds, root, n))
    && (forall n, k :: n in seen && k in Next(g, opaqueIds, n) ==> k in seen || k in stack)
  }

  lemma Revisit(g: Graph, opaqueIds: set<nat>, root: nat, seen: set<nat>, stack: seq<nat>, n: nat)
    requires WellFormed(g) && Walking(g, opaqueIds, root, seen, stack + [n]) && n in seen
    ensures Walking(g, opaqueIds, root, seen, stack)
  {
    assert forall k :: k in stack + [n] <==> k in stack || k == n;
  }

  lemma Visit(g: Graph, opaqueIds: set<nat>, root: nat, seen: set<nat>, stack: seq<nat>, n: nat)
    requires WellFormed(g) && Walking(g, opaqueIds, root, seen, stack + [n]) && n < |g| && !Hit(g, opaqueIds, root, n)
    ensures Walking(g, opaqueIds, root, seen + {n}, stack + Next(g, opaqueIds, n))
  {
    var next := Next(g, opaqueIds, n);
    assert forall k :: k in stack + [n] <==> k in stack || k == n;
    assert n in stack + [n];
    forall k | k in next ensures k < |g| && Reachable(g, opaqueIds, root, k) {
      ReachNext(g, opaqueIds, root, n, k);
    }
  }

  lemma Finished(g: Graph, opaqueIds: set<nat>, root: nat, seen: set<nat>)
    requires WellFormed(g) && Walking(g, opaqueIds, root, seen, [])
    ensures !FindsHit(g, opaqueIds, root)
  {
    forall n: nat | n < |g| && Reachable(g, opaqueIds, root, n) ensures !Hit(g, opaqueIds, root, n) {
      var path :| PathFrom(g, opaqueIds, root, path) && path[|path| - 1] == n;
      ClosedHoldsPath(g, opaqueIds, root, seen, path);
    }
  }

  /** The worklist: each element is looked at once, however many parents name it, and the
      answer is true exactly when an unpruned path leads to a reference to scope. */
  method ReferencesPlain(g: Graph, root: nat, opaqueIds: set<nat>) returns (found: bool)
    requires WellFormed(g) && root < |g|
    ensures found <==> ReadsPlain(g, opaqueIds, root)
  {
    FindsReference(g, opaqueIds, root);
    var stack: seq<nat> := [root];
    var seen: set<nat> := {};
    assert PathFrom(g, opaqueIds, root, [root]);
    while |stack| > 0
      invariant Walking(g, opaqueIds, root, seen, stack)
      decreases Ids(|g|) - seen, |stack|
    {
      var n, below := stack[|stack| - 1], stack[..|stack| - 1];
      assert stack == below + [n] && n in stack;
      var el := g[n];
      stack := below;
      if n in seen {
        Revisit(g, opaqueIds, root, seen, below, n);
        continue;
      }
      if n != root && el.nestedDml {
        return true;
      }
      if el.orm {
        if el.selectable >= 0 && el.selectable !in opaqueIds {
          if el.textual {
            return true;
          }
          stack := stack + [el.selectable];
        }
      } else if n !in opaqueIds {
        if el.scopedLeaf {
          return true;
        }
        if !el.boundValue {
          stack := stack + el.children;
        }
      }
      assert stack == below + Next(g, opaqueIds, n);
      Visit(g, opaqueIds, root, seen, below, n);
      seen := seen + {n};
    }
    Finished(g, opaqueIds, root, seen);
    return false;
  }

  /** Pruning more can only miss references that lie behind the newly opaque elements: the
      second, narrower walk never finds a reference the first one denied. */
  lemma OpaqueNarrows(g: Graph, root: nat, less: set<nat>, more: set<nat>)
    requires WellFormed(g) && root < |g| && less <= more && ReadsPlain(g, more, root)
    ensures ReadsPlain(g, less, root)
  {
    var path :| Unpruned(g, more, root, path) && Reference(g, more, root, path[|path| - 1]);
    forall i | 0 <= i < |path| - 1 ensures Leads(g, less, path[i], path[i + 1]) {
      assert Leads(g, more, path[i], path[i + 1]);
    }
    assert Unpruned(g, less, root, path);
  }

  // ---- The FROMs that a WHERE pulls in -------------------------------------------------

  /** A clause with the FROMs it says it reads; a column names its own. */
  datatype Clause = Clause(orm: bool, froms: seq<nat>, column: bool, children: seq<Clause>)

  /** The FROMs of the columns not behind an ORM element or one that reads nothing. */
  function PlainFroms(el: Clause): set<nat>
  {
    if el.orm || el.froms == [] then {}
    else if el.column then set f | f in el.froms
    else PlainFromsAll(el.children)
  }

  function PlainFromsAll(els: seq<Clause>): set<nat>
  {
    if els == [] then {} else PlainFroms(els[0]) + PlainFromsAll(els[1..])
  }

  function Size(el: Clause): nat { 1 + SizeAll(el.children) }

  function SizeAll(els: seq<Clause>): nat { if els == [] then 0 else Size(els[0]) + SizeAll(els[1..]) }

  lemma {:induction false} AllAppend(a: seq<Clause>, b: seq<Clause>)
    ensures PlainFromsAll(a + b) == PlainFromsAll(a) + PlainFromsAll(b) && SizeAll(a + b) == SizeAll(a) + SizeAll(b)
  {
    if a == [] {
      assert a + b == b;
    } else {
      AllAppend(a[1..], b);
      assert (a + b)[1..] == a[1..] + b;
    }
  }

  method CoreWhereFroms(where: seq<Clause>) returns (found: seq<nat>)
    ensures (set f | f in found) == PlainFromsAll(where)
  {
    found := [];
    var stack := where;
    while |stack| > 0
      invariant (set f | f in found) + PlainFromsAll(stack) == PlainFromsAll(where)
      decreases SizeAll(stack)
    {
      var el, below := stack[|stack| - 1], stack[..|stack| - 1];
      assert stack == below + [el];
      AllAppend(below, [el]);
      AllAppend(below, el.children);
      assert PlainFromsAll([el]) == PlainFroms(el) && SizeAll([el]) == Size(el);
      stack := below;
      if el.orm || el.froms == [] {
        continue;
      }
      if el.column {
        found := found + el.froms;
      } else {
        stack := stack + el.children;
      }
    }
  }

  /** The clause at the end of a way down through children. */
  function Down(el: Clause, way: seq<nat>): Option<Clause>
  {
    if way == [] then Some(el)
    else if way[0] < |el.children| then Down(el.children[way[0]], way[1..]) else None
  }

  /** A clause on the way is neither ORM nor one that reads nothing. */
  predicate Passes(c: Option<Clause>) { c.Some? && !c.value.orm && c.value.froms != [] }

  /** The way leads to the first column on it, which names `f`, and passes everywhere. */
  ghost predicate LeadsTo(el: Clause, way: seq<nat>, f: nat)
  {
    && (forall i {:trigger way[..i]} :: 0 <= i <= |way| ==>
      Passes(Down(el, way[..i])) && (Down(el, way[..i]).value.column <==> i == |way|))
    && Down(el, way).Some? && f in Down(el, way).value.froms
  }

  lemma LeadsOn(el: Clause, way: seq<nat>, f: nat)
    requires way != [] && way[0] < |el.children|
    ensures LeadsTo(el, way, f) <==> Passes(Some(el)) && !el.column && LeadsTo(el.children[way[0]], way[1..], f)
  {
    var rest := way[1..];
    forall i | 0 <= i <= |rest| ensures Down(el, way[..i + 1]) == Down(el.children[way[0]], rest[..i]) {
      assert way[..i + 1][1..] == rest[..i];
    }
    assert way[..0] == [] && way[..|way|] == way && rest[..|rest|] == rest;
    forall i | 0 < i <= |way| ensures Down(el, way[..i]) == Down(el.children[way[0]], rest[..i - 1]) {
      assert way[..i] == way[..(i - 1) + 1];
    }
  }

  lemma {:induction false} WayFound(els: seq<Clause>, f: nat) returns (k: nat, way: seq<nat>)
    requires f in PlainFromsAll(els)
    ensures k < |els| && LeadsTo(els[k], way, f)
    decreases SizeAll(els)
  {
    var el := els[0];
    assert SizeAll(els) == Size(el) + SizeAll(els[1..]) && Size(el) == 1 + SizeAll(el.children);
    if f in PlainFroms(el) {
      k := 0;
      if el.column {
        way := [];
        assert way[..0] == [];
      } else {
        var j, rest := WayFound(el.children, f);
        way := [j] + rest;
        assert way[1..] == rest;
        LeadsOn(el, way, f);
      }
    } else {
      var j, rest := WayFound(els[1..], f);
      k, way := j + 1, rest;
    }
  }

  lemma {:induction false} WayCounts(els: seq<Clause>, k: nat, way: seq<nat>, f: nat)
    requires k < |els| && LeadsTo(els[k], way, f)
    ensures f in PlainFromsAll(els)
    decreases |way|, k
  {
    var el := els[k];
    if k > 0 {
      WayCounts(els[1..], k - 1, way, f);
    } else if way == [] {
      assert way[..0] == [];
    } else {
      assert way[..0] == [] && way[..1] == [way[0]];
      assert Passes(Down(el, way[..1]));
      LeadsOn(el, way, f);
      WayCounts(el.children, way[0], way[1..], f);
    }
  }

  /** A FROM is collected exactly when some column names it with no ORM element, and none that reads nothing, on
      the way down to it. */
  lemma PlainFromsIff(els: seq<Clause>, f: nat)
    ensures f in PlainFromsAll(els) <==> exists k, way :: 0 <= k < |els| && LeadsTo(els[k], way, f)
  {
    if f in PlainFromsAll(els) {
      var k, way := WayFound(els, f);
    }
    if k, way :| 0 <= k < |els| && LeadsTo(els[k], way, f) {
      WayCounts(els, k, way, f);
    }
  }

  /** No ORM element, and every clause reads what its children read. */
  predicate CoreOnly(el: Clause)
  {
    && !el.orm
    && (!el.column ==> (set f | f in el.froms) == ReadsOf(el.children))
    && forall i :: 0 <= i < |el.children| ==> CoreOnly(el.children[i])
  }

  function ReadsOf(els: seq<Clause>): set<nat>
  {
    if els == [] then {} else (set f | f in els[0].froms) + ReadsOf(els[1..])
  }

  /** Where nothing is ORM the walk finds what the clauses themselves say they read. */
  lemma {:induction false} CoreReadsAll(els: seq<Clause>)
    requires forall i :: 0 <= i < |els| ==> CoreOnly(els[i])
    ensures PlainFromsAll(els) == ReadsOf(els)
    decreases SizeAll(els)
  {
    if els != [] {
      var el := els[0];
      assert forall i :: 0 <= i < |els[1..]| ==> els[1..][i] == els[i + 1];
      assert SizeAll(els) == Size(el) + SizeAll(els[1..]) && Size(el) == 1 + SizeAll(el.children);
      CoreReadsAll(els[1..]);
      CoreReadsAll(el.children);
    }
  }
}
