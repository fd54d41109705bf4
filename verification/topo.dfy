/** The topological builder: a post-order depth-first search from a root that
    appends a node only after all of its children, with a visited set keyed on
    node identity (the arena index) so that a node reachable along several
    paths is appended once. */
module Topo {
  import opened Autograd

  /** No index occurs twice. */
  predicate Distinct(s: seq<nat>) {
    forall i, j :: 0 <= i < j < |s| ==> s[i] != s[j]
  }

  /** Every entry is a node of `g`, and every child of an entry occurs earlier. */
  predicate ChildrenFirst(g: Arena, t: seq<nat>) {
    && (forall k :: 0 <= k < |t| ==> t[k] < |g|)
    && (forall k, j :: 0 <= k < |t| && 0 <= j < |g[t[k]].children| ==> g[t[k]].children[j] in t[..k])
  }

  /** The nodes reachable from `n` along child edges, `n` included. */
  function Reach(g: Arena, n: nat): (r: set<nat>)
    requires Acyclic(g) && n < |g|
    ensures n in r && forall x :: x in r ==> x <= n
    decreases n, |g[n].children| + 1
  {
    {n} + ReachKids(g, n, 0)
  }

  /** The nodes reachable from the children of `n` at positions `k` and later. */
  function ReachKids(g: Arena, n: nat, k: nat): (r: set<nat>)
    requires Acyclic(g) && n < |g| && k <= |g[n].children|
    ensures forall x :: x in r ==> x < n
    decreases n, |g[n].children| - k
  {
    if k == |g[n].children| then {}
    else Reach(g, g[n].children[k]) + ReachKids(g, n, k + 1)
  }

  /** Every child at position `j >= k` is in `ReachKids(g, n, k)`. */
  lemma {:induction false} KidInReachKids(g: Arena, n: nat, k: nat, j: nat)
    requires Acyclic(g) && n < |g| && k <= j < |g[n].children|
    ensures g[n].children[j] in ReachKids(g, n, k)
    decreases j - k
  {
    if k < j {
      KidInReachKids(g, n, k + 1, j);
    }
  }

  /** `ReachKids` is contained in any set that contains the reach of each child. */
  lemma {:induction false} ReachKidsWithin(g: Arena, n: nat, k: nat, s: set<nat>)
    requires Acyclic(g) && n < |g| && k <= |g[n].children|
    requires forall j :: k <= j < |g[n].children| ==> Reach(g, g[n].children[j]) <= s
    ensures ReachKids(g, n, k) <= s
    decreases |g[n].children| - k
  {
    if k < |g[n].children| {
      ReachKidsWithin(g, n, k + 1, s);
    }
  }

  /** When every child from position `k` on is at most `b`, so is everything
      reachable from them. */
  lemma {:induction false} ReachKidsBelow(g: Arena, n: nat, k: nat, b: nat)
    requires Acyclic(g) && n < |g| && k <= |g[n].children|
    requires forall j :: k <= j < |g[n].children| ==> g[n].children[j] <= b
    ensures forall x :: x in ReachKids(g, n, k) ==> x <= b
    decreases |g[n].children| - k
  {
    if k < |g[n].children| {
      ReachKidsBelow(g, n, k + 1, b);
    }
  }

  /** Appending nodes to an arena changes nothing reachable from an old node. */
  lemma {:induction false} ReachPrefix(g: Arena, h: Arena, n: nat)
    requires Acyclic(g) && Acyclic(h) && n < |g| <= |h|
    requires forall i :: 0 <= i < |g| ==> h[i].children == g[i].children
    ensures Reach(h, n) == Reach(g, n)
    decreases n, |g[n].children| + 1
  {
    ReachKidsPrefix(g, h, n, 0);
  }

  lemma {:induction false} ReachKidsPrefix(g: Arena, h: Arena, n: nat, k: nat)
    requires Acyclic(g) && Acyclic(h) && n < |g| <= |h| && k <= |g[n].children|
    requires forall i :: 0 <= i < |g| ==> h[i].children == g[i].children
    ensures ReachKids(h, n, k) == ReachKids(g, n, k)
    decreases n, |g[n].children| - k
  {
    if k < |g[n].children| {
      ReachPrefix(g, h, g[n].children[k]);
      ReachKidsPrefix(g, h, n, k + 1);
    }
  }

  /** When every child of `root` is at most `x`, no node reachable from
      `root` other than `root` itself has `x` as a child. */
  lemma NoOtherParent(g: Arena, root: nat, x: nat)
    requires Acyclic(g) && root < |g|
    requires forall j :: 0 <= j < |g[root].children| ==> g[root].children[j] <= x
    ensures forall y :: y in Reach(g, root) && y != root && y < |g| ==> x !in g[y].children
  {
    ReachKidsBelow(g, root, 0, x);
    forall y | y in Reach(g, root) && y != root && y < |g|
      ensures x !in g[y].children
    {
      assert y in ReachKids(g, root, 0);
      forall j | 0 <= j < |g[y].children| ensures g[y].children[j] < x {
        assert g[y].children[j] < y;
      }
    }
  }

  /** Below a node with a single child, everything reachable other than the
      node is reachable from that child. */
  lemma ReachNotRoot(g: Arena, n: nat, y: nat)
    requires Acyclic(g) && n < |g| && |g[n].children| == 1
    requires y in Reach(g, n) && y != n
    ensures y in Reach(g, g[n].children[0])
  {
    assert ReachKids(g, n, 1) == {};
  }

  /** A sequence in which children come first contains everything reachable
      from any of its entries. */
  lemma {:induction false} ClosedUnderReach(g: Arena, t: seq<nat>, n: nat)
    requires Acyclic(g) && ChildrenFirst(g, t) && n in t
    ensures n < |g| && forall x :: x in Reach(g, n) ==> x in t
    decreases n
  {
    var k :| 0 <= k < |t| && t[k] == n;
    var cs := g[n].children;
    forall j | 0 <= j < |cs|
      ensures Reach(g, cs[j]) <= set x | x in t
    {
      assert g[t[k]].children[j] in t[..k];
      ClosedUnderReach(g, t, cs[j]);
    }
    ReachKidsWithin(g, n, 0, set x | x in t);
  }

  /** One step of the search from `n`: skip it when already visited, otherwise
      mark it, search its children in order, then append it. */
  function Visit(g: Arena, n: nat, topo: seq<nat>, visited: set<nat>): (seq<nat>, set<nat>)
    requires Acyclic(g) && n < |g|
    decreases n, |g[n].children| + 1
  {
    if n in visited then (topo, visited)
    else
      var kids := VisitKids(g, n, 0, topo, visited + {n});
      (kids.0 + [n], kids.1)
  }

  /** The search over the children of `p` from position `k` on. */
  function VisitKids(g: Arena, p: nat, k: nat, topo: seq<nat>, visited: set<nat>): (seq<nat>, set<nat>)
    requires Acyclic(g) && p < |g| && k <= |g[p].children|
    decreases p, |g[p].children| - k
  {
    if k == |g[p].children| then (topo, visited)
    else
      var one := Visit(g, g[p].children[k], topo, visited);
      VisitKids(g, p, k + 1, one.0, one.1)
  }

  /** The invariant of the search below `n`: `topo` is duplicate-free with
      children first, every finished node is visited, and the visited nodes
      at or below `n` are exactly the finished ones (the nodes on the current
      path all lie above `n`). */
  predicate SearchState(g: Arena, n: nat, topo: seq<nat>, visited: set<nat>) {
    && Distinct(topo) && ChildrenFirst(g, topo)
    && (forall x :: x in topo ==> x in visited)
    && (forall x :: x in visited && x <= n ==> x in topo)
  }

  /** Appending a fresh node whose children are all present keeps the order
      duplicate-free and children-first. */
  lemma AppendNode(g: Arena, t: seq<nat>, n: nat)
    requires Distinct(t) && ChildrenFirst(g, t) && n < |g| && n !in t
    requires forall j :: 0 <= j < |g[n].children| ==> g[n].children[j] in t
    ensures Distinct(t + [n]) && ChildrenFirst(g, t + [n])
  {
    var u := t + [n];
    forall k, j | 0 <= k < |u| && 0 <= j < |g[u[k]].children|
      ensures g[u[k]].children[j] in u[..k]
    {
      if k < |t| {
        assert u[..k] == t[..k];
      } else {
        assert u[..k] == t;
      }
    }
  }

  /** The search from `n` extends `topo` by exactly the nodes reachable from
      `n` that it lacked, keeps it duplicate-free and children-first, and
      marks those nodes visited; when `n` was unvisited it is appended last. */
  lemma {:induction false} VisitSpec(g: Arena, n: nat, topo: seq<nat>, visited: set<nat>)
    requires Acyclic(g) && n < |g| && SearchState(g, n, topo, visited)
    ensures var r := Visit(g, n, topo, visited);
      && topo <= r.0 && Distinct(r.0) && ChildrenFirst(g, r.0)
      && (forall x :: x in r.0 <==> x in topo || x in Reach(g, n))
      && r.1 == visited + Reach(g, n)
      && (n !in visited ==> |r.0| > 0 && r.0[|r.0| - 1] == n)
    decreases n, |g[n].children| + 1
  {
    if n in visited {
      ClosedUnderReach(g, topo, n);
    } else {
      var v := visited + {n};
      VisitKidsSpec(g, n, 0, topo, v);
      var kids := VisitKids(g, n, 0, topo, v);
      forall j | 0 <= j < |g[n].children|
        ensures g[n].children[j] in kids.0
      {
        KidInReachKids(g, n, 0, j);
      }
      AppendNode(g, kids.0, n);
    }
  }

  /** The search over the children of `p` from position `k` adds exactly the
      nodes reachable from those children, and never `p` itself. */
  lemma {:induction false} VisitKidsSpec(g: Arena, p: nat, k: nat, topo: seq<nat>, visited: set<nat>)
    requires Acyclic(g) && p < |g| && k <= |g[p].children|
    requires Distinct(topo) && ChildrenFirst(g, topo)
    requires forall x :: x in topo ==> x in visited
    requires forall x :: x in visited && x < p ==> x in topo
    requires p in visited && p !in topo
    ensures var r := VisitKids(g, p, k, topo, visited);
      && topo <= r.0 && Distinct(r.0) && ChildrenFirst(g, r.0)
      && (forall x :: x in r.0 <==> x in topo || x in ReachKids(g, p, k))
      && r.1 == visited + ReachKids(g, p, k)
      && p !in r.0
    decreases p, |g[p].children| - k
  {
    if k < |g[p].children| {
      var c := g[p].children[k];
      VisitSpec(g, c, topo, visited);
      var one := Visit(g, c, topo, visited);
      assert forall x :: x in Reach(g, c) ==> x < p;
      VisitKidsSpec(g, p, k + 1, one.0, one.1);
      var r := VisitKids(g, p, k + 1, one.0, one.1);
      assert r == VisitKids(g, p, k, topo, visited);
      KidsJoin(topo, one.0, r.0, visited, one.1, r.1, Reach(g, c), ReachKids(g, p, k + 1));
    }
  }

  /** Chains the search over one child with the search over the rest. */
  lemma KidsJoin(t0: seq<nat>, t1: seq<nat>, t2: seq<nat>, v0: set<nat>, v1: set<nat>, v2: set<nat>, a: set<nat>, b: set<nat>)
    requires t0 <= t1 && t1 <= t2
    requires forall x :: x in t1 <==> x in t0 || x in a
    requires forall x :: x in t2 <==> x in t1 || x in b
    requires v1 == v0 + a && v2 == v1 + b
    ensures t0 <= t2 && v2 == v0 + (a + b)
    ensures forall x :: x in t2 <==> x in t0 || x in a + b
  {
    assert t2[..|t0|] == t1[..|t0|];
  }

  /** `get_topo`: the post-order linearisation of everything reachable from `root`. */
  function GetTopo(g: Arena, root: nat): (t: seq<nat>)
    requires Acyclic(g) && root < |g|
    ensures Distinct(t) && ChildrenFirst(g, t)
    ensures forall x :: x in t <==> x in Reach(g, root)
    ensures |t| > 0 && t[|t| - 1] == root
  {
    VisitSpec(g, root, [], {});
    Visit(g, root, [], {}).0
  }

  /** Every node reachable from an entry (other than the entry itself)
      appears before it. */
  lemma DescendantsFirst(g: Arena, root: nat, k: nat, x: nat)
    requires Acyclic(g) && root < |g| && k < |GetTopo(g, root)|
    requires x in Reach(g, GetTopo(g, root)[k]) && x != GetTopo(g, root)[k]
    ensures x in GetTopo(g, root)[..k]
  {
    var t := GetTopo(g, root);
    var n := t[k];
    var pre := t[..k];
    assert ChildrenFirst(g, pre) by {
      forall i, j | 0 <= i < |pre| && 0 <= j < |g[pre[i]].children|
        ensures g[pre[i]].children[j] in pre[..i]
      {
        assert pre[..i] == t[..i];
      }
    }
    forall j | 0 <= j < |g[n].children|
      ensures Reach(g, g[n].children[j]) <= set y | y in pre
    {
      ClosedUnderReach(g, pre, g[n].children[j]);
    }
    ReachKidsWithin(g, n, 0, set y | y in pre);
  }

  /** Every entry of the order is at most the root: the root is the largest. */
  lemma TopoBelowRoot(g: Arena, root: nat, k: nat)
    requires Acyclic(g) && root < |g| && k < |GetTopo(g, root)|
    ensures GetTopo(g, root)[k] <= root
  {
    assert GetTopo(g, root)[k] in Reach(g, root);
  }
}
