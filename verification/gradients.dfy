/** What `backward` computes, stated node by node: who keeps its gradient,
    who receives what, and what a repeated pass adds. */
module Gradients {
  import opened Matrix
  import opened Autograd
  import opened Topo
  import opened BackwardPass

  /** Nodes that have `x` as a child among none of `order` add nothing. */
  lemma {:induction false} AccumSkips(acc: Mat, r: Arena, num: Numerics, order: seq<nat>, x: nat)
    requires Runnable(r, order) && x < |r| && Valid(acc) && SameShape(acc, r[x].value)
    requires forall k :: 0 <= k < |order| ==> x !in r[order[k]].children
    ensures Accum(acc, r, num, order, x) == acc
    decreases |order|
  {
    if order != [] {
      GatherSkips(acc, r, num, order[0], 0, x);
      AccumSkips(acc, r, num, order[1..], x);
    }
  }

  /** When `order[i]` is the only node of `order` with `x` as a child, the
      accumulated total is that node's contribution alone. */
  lemma {:induction false} AccumSingle(acc: Mat, r: Arena, num: Numerics, order: seq<nat>, x: nat, i: nat)
    requires Runnable(r, order) && x < |r| && Valid(acc) && SameShape(acc, r[x].value) && i < |order|
    requires forall k :: 0 <= k < |order| && k != i ==> x !in r[order[k]].children
    ensures Accum(acc, r, num, order, x) == Gather(acc, r, num, order[i], 0, x)
    decreases |order|
  {
    if i == 0 {
      var acc1 := Gather(acc, r, num, order[0], 0, x);
      AccumSkips(acc1, r, num, order[1..], x);
    } else {
      GatherSkips(acc, r, num, order[0], 0, x);
      AccumSingle(acc, r, num, order[1..], x, i - 1);
    }
  }

  /** A child of a node reachable from the root is reachable from the root. */
  lemma ChildReachable(g: Arena, root: nat, y: nat, j: nat)
    requires Acyclic(g) && root < |g| && y in Reach(g, root) && y < |g| && j < |g[y].children|
    ensures g[y].children[j] in Reach(g, root)
  {
    var t := GetTopo(g, root);
    var k :| 0 <= k < |t| && t[k] == y;
    assert g[t[k]].children[j] in t[..k];
  }

  /** The walk from `root` passes, to every node, its gradient plus the
      contributions of every node it visits, each computed from the final arena. */
  lemma BackwardAccumulates(g: Arena, num: Numerics, root: nat, x: nat)
    requires WellFormed(g) && root < |g| && Differentiable(g, root) && x < |g|
    ensures Runnable(Backward(g, num, root), Order(g, root))
    ensures Shaped(g, x)
    ensures Backward(g, num, root)[x].grad == Accum(g[x].grad, Backward(g, num, root), num, Order(g, root), x)
  {
    var o := Order(g, root);
    assert Runnable(g, o) by {
      forall k | 0 <= k < |o| ensures o[k] < |g| && DefinedAt(g, o[k]) {
        assert o[k] in Reach(g, root);
      }
    }
    OrderParentsFirst(g, root);
    RunAccumulates(g, num, o, x);
  }

  /** `backward` leaves the root's own gradient, and every node not reachable
      from the root, exactly as they were. */
  lemma BackwardKeeps(g: Arena, num: Numerics, root: nat, x: nat)
    requires WellFormed(g) && root < |g| && Differentiable(g, root) && x < |g|
    requires x == root || x !in Reach(g, root)
    ensures Backward(g, num, root)[x] == g[x]
  {
    var o := Order(g, root);
    assert Runnable(g, o) by {
      forall k | 0 <= k < |o| ensures o[k] < |g| && DefinedAt(g, o[k]) {
        assert o[k] in Reach(g, root);
      }
    }
    forall k | 0 <= k < |o|
      ensures x !in g[o[k]].children
    {
      var y := o[k];
      assert y in Reach(g, root);
      forall j | 0 <= j < |g[y].children|
        ensures g[y].children[j] != x
      {
        ChildReachable(g, root, y, j);
      }
    }
    RunUntouched(g, num, o, x);
  }

  /** In a duplicate-free order drawn from `reach`, only the entry `q` can
      have `x` as a child when no other node of `reach` does. */
  lemma OthersSkip(g: Arena, r: Arena, o: seq<nat>, reach: set<nat>, q: nat, x: nat, i: nat)
    requires Distinct(o) && i < |o| && o[i] == q
    requires forall k :: 0 <= k < |o| ==> o[k] in reach && o[k] < |g|
    requires SameStructure(g, r)
    requires forall y :: y in reach && y != q && y < |g| ==> x !in g[y].children
    ensures forall k :: 0 <= k < |o| && k != i ==> x !in r[o[k]].children
  {
    forall k | 0 <= k < |o| && k != i
      ensures x !in r[o[k]].children
    {
      assert o[k] != o[i];
      assert r[o[k]].children == g[o[k]].children;
    }
  }

  /** When `q` is the only node reachable from the root that has `x` as a
      child, `x` receives exactly `q`'s contributions, computed from `q`'s
      final gradient; a node listed twice as `q`'s child receives both terms. */
  lemma SoleParent(g: Arena, num: Numerics, root: nat, q: nat, x: nat)
    requires WellFormed(g) && root < |g| && Differentiable(g, root) && x < |g|
    requires q in Reach(g, root)
    requires forall y :: y in Reach(g, root) && y != q && y < |g| ==> x !in g[y].children
    ensures q < |g| && Shaped(g, x) && DefinedAt(Backward(g, num, root), q)
    ensures Backward(g, num, root)[x].grad == Gather(g[x].grad, Backward(g, num, root), num, q, 0, x)
  {
    var r := Backward(g, num, root);
    var o := Order(g, root);
    BackwardAccumulates(g, num, root, x);
    assert q in o;
    AccumOnly(g, g[x].grad, r, num, o, Reach(g, root), q, x);
  }

  /** The accumulation over a duplicate-free order drawn from `reach` is
      `q`'s contribution alone when no other node of `reach` has `x` as a child. */
  lemma AccumOnly(g: Arena, acc: Mat, r: Arena, num: Numerics, o: seq<nat>, reach: set<nat>, q: nat, x: nat)
    requires Runnable(r, o) && x < |r| && Valid(acc) && SameShape(acc, r[x].value)
    requires Distinct(o) && q in o && SameStructure(g, r)
    requires forall k :: 0 <= k < |o| ==> o[k] in reach && o[k] < |g|
    requires forall y :: y in reach && y != q && y < |g| ==> x !in g[y].children
    ensures Accum(acc, r, num, o, x) == Gather(acc, r, num, q, 0, x)
  {
    var i :| 0 <= i < |o| && o[i] == q;
    OthersSkip(g, r, o, reach, q, x, i);
    AccumSingle(acc, r, num, o, x, i);
  }

  /** A node whose only parent among those reachable from the root is the
      single-child node `q` receives exactly `q`'s one contribution. */
  lemma SoleUnaryParent(g: Arena, num: Numerics, root: nat, q: nat, x: nat)
    requires WellFormed(g) && root < |g| && Differentiable(g, root) && x < |g|
    requires q in Reach(g, root) && q < |g| && g[q].children == [x] && Propagates(g[q].op, 0)
    requires forall y :: y in Reach(g, root) && y != q && y < |g| ==> x !in g[y].children
    ensures Shaped(g, x) && DefinedAt(Backward(g, num, root), q)
    ensures Backward(g, num, root)[x].grad == MatAdd(g[x].grad, Contrib(Backward(g, num, root), num, q, 0))
  {
    SoleParent(g, num, root, q, x);
  }

  /** `a.add(&a)`: the aliased operand receives the seeded gradient twice. */
  lemma AliasedAddDoubles(g: Arena, num: Numerics, a: nat, dy: Mat)
    requires WellFormed(g) && a < |g| && Valid(dy) && SameShape(dy, g[a].value)
    requires Differentiable(SetGrad(AddOp(g, a, a), |g|, dy), |g|)
    ensures var h := SetGrad(AddOp(g, a, a), |g|, dy);
      WellFormed(h) && Valid(g[a].grad) && SameShape(g[a].grad, dy) &&
      Backward(h, num, |g|)[a].grad == MatAdd(MatAdd(g[a].grad, dy), dy)
  {
    var g1 := AddOp(g, a, a);
    var h := SetGrad(g1, |g|, dy);
    var root := |g|;
    assert Shaped(g, a);
    assert h[root].children == [a, a] && h[root].op == Add;
    ReachKidsBelow(h, root, 0, a);
    forall y | y in Reach(h, root) && y != root && y < |h|
      ensures a !in h[y].children
    {
      assert y in ReachKids(h, root, 0);
      forall j | 0 <= j < |h[y].children| ensures h[y].children[j] < a {
        assert h[y].children[j] < y;
      }
    }
    SoleParent(h, num, root, root, a);
    var r := Backward(h, num, root);
    BackwardKeeps(h, num, root, root);
    assert r[root] == h[root];
    assert h[a] == g[a];
    assert r[root].children == [a, a] && r[root].op == Add;
    var acc := g[a].grad;
    assert Contrib(r, num, root, 0) == dy;
    assert Contrib(r, num, root, 1) == dy;
    assert Gather(acc, r, num, root, 0, a) == Gather(MatAdd(acc, dy), r, num, root, 1, a);
    assert Gather(MatAdd(acc, dy), r, num, root, 1, a) == Gather(MatAdd(MatAdd(acc, dy), dy), r, num, root, 2, a);
  }
}
