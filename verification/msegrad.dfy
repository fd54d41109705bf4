/** What `backward` does to the graph `MSE::forward` builds: seeded at the
    loss with `dy`, each prediction gains `2 * (p_i - t_i) / N * dy`.
    Positions are those of `MseGraph`: after the caller's `b` nodes, turn `k`
    occupies `b + 5k + 1 .. b + 5k + 5`, and the running sum after `k` turns
    sits at `b + 5k`. */
module MseGradient {
  import opened Matrix
  import opened Autograd
  import opened Topo
  import opened BackwardPass
  import opened Gradients
  import opened Nn
  import opened Loss

  /** Node `x` holds a 1x1 gradient whose entry is `v`. */
  predicate GradIs(r: Arena, x: nat, v: real) {
    x < |r| && Valid(r[x].grad) && r[x].grad.rows == 1 && r[x].grad.cols == 1 && Scalar(r[x].grad) == v
  }

  /** One loop turn's nodes survive a change confined to a later node `m`. */
  lemma {:induction false} MseTermAtAgree(g: Arena, h: Arena, c: nat, p: nat, t: real, m: nat)
    requires MseTermAt(g, c, p, t) && |h| == |g| && c + 5 < m && p != m
    requires forall x :: 0 <= x < |g| && x != m ==> h[x] == g[x]
    ensures MseTermAt(h, c, p, t)
  {
    assert h[p] == g[p] && h[c + 1] == g[c + 1] && h[c + 2] == g[c + 2] && h[c + 3] == g[c + 3];
    assert h[c + 4] == g[c + 4] && h[c + 5] == g[c + 5];
  }

  /** Seeding the loss node with a gradient keeps the shape of the graph. */
  lemma {:induction false} SeededGraph(h0: Arena, b: nat, pred: seq<nat>, target: nat, dy: Mat)
    requires MseGraph(h0, b, pred, target)
    ensures MseGraph(SetGrad(h0, b + 5 * |pred| + 2, dy), b, pred, target)
  {
    var m := b + 5 * |pred| + 2;
    var h := SetGrad(h0, m, dy);
    forall k | 0 <= k < |pred| ensures Turn(h, b, 0, pred, target, k) {
      assert Turn(h0, b, 0, pred, target, k);
      MseTermAtAgree(h0, h, b + 5 * (k - 0), pred[k], TargetAt(k, target), m);
    }
    assert h[b] == h0[b] && h[m - 1] == h0[m - 1];
  }

  /** Node `y = b + 5j + s` of the graph, by its position. */
  lemma {:induction false} NewNode(h: Arena, b: nat, pred: seq<nat>, target: nat, y: nat, j: nat, s: nat)
    requires MseGraph(h, b, pred, target) && y < |h| && y == b + 5 * j + s && s < 5
    ensures s == 0 && j == 0 ==> NodeIs(h, y, Op.None, [])
    ensures s == 0 && 0 < j ==> NodeIs(h, y, Add, [y - 5, y - 1])
    ensures j < |pred| && (s == 1 || s == 3) ==> NodeIs(h, y, Op.None, [])
    ensures s == 2 && j < |pred| ==> NodeIs(h, y, Sub, [pred[j], y - 1])
    ensures s == 4 ==> NodeIs(h, y, Pow, [y - 2, y - 1])
    ensures j == |pred| && s == 1 ==> NodeIs(h, y, Op.None, []) && Val(h, y) == |pred| as real
    ensures j == |pred| && s == 2 ==> NodeIs(h, y, Div, [y - 2, y - 1])
  {
    if s == 0 && j == 0 {
    } else if s == 0 {
      assert Turn(h, b, 0, pred, target, j - 1);
    } else if j < |pred| {
      assert Turn(h, b, 0, pred, target, j);
    }
  }

  /** The one node with `x = b + 5k + s` among its children: the next
      running sum over a running sum (the loss over the last one), the
      square over the difference, and the node just after the others. */
  lemma {:induction false} ParentIs(h: Arena, b: nat, pred: seq<nat>, target: nat, x: nat, k: nat, s: nat, y: nat)
    requires Acyclic(h) && MseGraph(h, b, pred, target) && x == b + 5 * k + s && s < 5
    requires y < |h| && x in h[y].children
    ensures y == if s == 0 then (if k < |pred| then x + 5 else x + 2) else if s == 2 then x + 2 else x + 1
  {
    var i :| 0 <= i < |h[y].children| && h[y].children[i] == x;
    assert x < y;
    var j, t := (y - b) / 5, (y - b) % 5;
    NewNode(h, b, pred, target, y, j, t);
    if t == 2 && j < |pred| {
      assert pred[j] < b;
    }
  }

  /** Every running sum after the first turn is reachable from the loss. */
  lemma {:induction false} SumsReach(h: Arena, b: nat, pred: seq<nat>, target: nat, k: nat)
    requires Acyclic(h) && MseGraph(h, b, pred, target) && 1 <= k <= |pred|
    ensures b + 5 * k in Reach(h, b + 5 * |pred| + 2)
    decreases |pred| - k
  {
    var root := b + 5 * |pred| + 2;
    if k == |pred| {
      NewNode(h, b, pred, target, root, |pred|, 2);
      ChildReachable(h, root, root, 0);
    } else {
      SumsReach(h, b, pred, target, k + 1);
      NewNode(h, b, pred, target, b + 5 * (k + 1), k + 1, 0);
      ChildReachable(h, root, b + 5 * (k + 1), 0);
    }
  }

  // ---------------------------------------------------------------- one parent

  /** Gathering from `p` adds its contribution through position `i` once when
      `x` sits at `i` and at no other position from `j` on. */
  lemma {:induction false} GatherOnce(acc: Mat, r: Arena, num: Numerics, p: nat, j: nat, i: nat, x: nat)
    requires WellFormed(r) && p < |r| && x < |r| && j <= i < |r[p].children| && DefinedAt(r, p)
    requires Valid(acc) && SameShape(acc, r[x].value)
    requires r[p].children[i] == x && Propagates(r[p].op, i)
    requires forall k :: j <= k < |r[p].children| && k != i ==> r[p].children[k] != x
    ensures Gather(acc, r, num, p, j, x) == MatAdd(acc, Contrib(r, num, p, i))
    decreases i - j
  {
    if j < i {
      GatherOnce(acc, r, num, p, j + 1, i, x);
    } else {
      GatherSkips(MatAdd(acc, Contrib(r, num, p, i)), r, num, p, i + 1, x);
    }
  }

  /** `r` is `h` after a backward pass in which `x`, child `i` of `q`, gained
      exactly `q`'s contribution through that position. */
  predicate Received(h: Arena, r: Arena, num: Numerics, q: nat, x: nat, i: nat) {
    && WellFormed(h) && WellFormed(r) && SameFrame(h, r) && x < |r|
    && q < |r| && i < |r[q].children| && r[q].children[i] == x && Propagates(r[q].op, i) && DefinedAt(r, q)
    && Valid(h[x].grad) && SameShape(h[x].grad, r[x].value)
    && r[x].grad == MatAdd(h[x].grad, Contrib(r, num, q, i))
  }

  /** A node listed once, at position `i`, by its only parent `q` among the
      nodes reachable from the root gains exactly that one contribution. */
  lemma {:induction false} OnlyChild(h: Arena, num: Numerics, root: nat, q: nat, x: nat, i: nat)
    requires WellFormed(h) && root < |h| && Differentiable(h, root) && x < |h|
    requires q in Reach(h, root) && q < |h| && i < |h[q].children| && h[q].children[i] == x
    requires Propagates(h[q].op, i)
    requires forall k :: 0 <= k < |h[q].children| && k != i ==> h[q].children[k] != x
    requires forall y :: y in Reach(h, root) && y != q && y < |h| ==> x !in h[y].children
    ensures Received(h, Backward(h, num, root), num, q, x, i)
  {
    var r := Backward(h, num, root);
    SoleParent(h, num, root, q, x);
    GatherOnceIn(h, r, num, q, x, i);
  }

  /** `GatherOnce` over a gradient-only change of `h`. */
  lemma {:induction false} GatherOnceIn(h: Arena, r: Arena, num: Numerics, q: nat, x: nat, i: nat)
    requires WellFormed(h) && WellFormed(r) && SameFrame(h, r) && x < |h|
    requires q < |h| && i < |h[q].children| && h[q].children[i] == x && Propagates(h[q].op, i) && DefinedAt(r, q)
    requires forall k :: 0 <= k < |h[q].children| && k != i ==> h[q].children[k] != x
    ensures Valid(h[x].grad) && SameShape(h[x].grad, r[x].value)
    ensures Gather(h[x].grad, r, num, q, 0, x) == MatAdd(h[x].grad, Contrib(r, num, q, i))
  {
    var cs := h[q].children;
    assert r[q].children == cs && r[q].op == h[q].op && r[x].value == h[x].value;
    GatherOnce(h[x].grad, r, num, q, 0, i, x);
  }

  // ---------------------------------------------------------------- scalar rules

  /** A scalar child of an `add`, or the minuend of a `sub`, whose gradient
      is `v` gains `v`; `w` is what it then holds. */
  lemma {:induction false} PassOn(h: Arena, r: Arena, num: Numerics, q: nat, x: nat, i: nat, v: real, w: real)
    requires Received(h, r, num, q, x, i) && ScalarAt(h, x)
    requires h[q].op == Add || (h[q].op == Sub && i == 0)
    requires w == Scalar(h[x].grad) + v
    ensures GradIs(r, q, v) ==> GradIs(r, x, w)
  {
    assert r[x].value == h[x].value && r[q].op == h[q].op;
  }

  /** The dividend of a `div` by the scalar `d` gains `v / d`. */
  lemma {:induction false} PassDiv(h: Arena, r: Arena, num: Numerics, q: nat, x: nat, v: real, d: real, w: real)
    requires Received(h, r, num, q, x, 0) && ScalarAt(h, x)
    requires h[q].op == Div && |h[q].children| == 2 && ScalarAt(h, h[q].children[1]) && Val(h, h[q].children[1]) == d
    requires w == Scalar(h[x].grad) + v / d
    ensures GradIs(r, q, v) ==> GradIs(r, x, w)
  {
    assert r[q] .op == h[q].op && r[q].children == h[q].children;
    assert r[x].value == h[x].value && r[h[q].children[1]].value == h[h[q].children[1]].value;
  }

  /** The base of a power `x^e` gains `v * e * x^(e-1)`. */
  lemma {:induction false} PassPow(h: Arena, r: Arena, num: Numerics, q: nat, x: nat, v: real, e: real, w: real)
    requires Received(h, r, num, q, x, 0) && ScalarAt(h, x)
    requires h[q].op == Pow && |h[q].children| == 2 && ScalarAt(h, h[q].children[1]) && Val(h, h[q].children[1]) == e
    requires w == Scalar(h[x].grad) + v * (e * num.pow(Val(h, x), e - 1.0))
    ensures GradIs(r, q, v) ==> GradIs(r, x, w)
  {
    assert r[q] .op == h[q].op && r[q].children == h[q].children;
    assert r[x].value == h[x].value && r[h[q].children[1]].value == h[h[q].children[1]].value;
  }

  /** A fresh gradient adds nothing. */
  lemma {:induction false} FreshScalar(h: Arena, x: nat)
    requires WellFormed(h) && ScalarAt(h, x) && FreshGrad(h, x)
    ensures h[x].grad.rows == 1 && h[x].grad.cols == 1 && Scalar(h[x].grad) == 0.0
  {
  }

  /** The root keeps the gradient it was seeded with. */
  lemma {:induction false} RootKept(h: Arena, num: Numerics, root: nat)
    requires WellFormed(h) && root < |h| && Differentiable(h, root) && ScalarAt(h, root)
    ensures GradIs(Backward(h, num, root), root, Scalar(h[root].grad))
  {
    BackwardKeeps(h, num, root, root);
  }

  // ---------------------------------------------------------------- parents

  /** The loss divides the last running sum, which no other node uses. */
  lemma {:induction false} LastSumLinks(h: Arena, b: nat, pred: seq<nat>, target: nat)
    requires Acyclic(h) && MseGraph(h, b, pred, target) && |pred| > 0
    ensures var x := b + 5 * |pred|;
      && NodeIs(h, x + 2, Div, [x, x + 1]) && LeafOf(h, x + 1, |pred| as real)
      && FreshGrad(h, x) && ScalarAt(h, x)
      && forall y :: y in Reach(h, x + 2) && y != x + 2 && y < |h| ==> x !in h[y].children
  {
    var n := |pred|;
    var x := b + 5 * n;
    NewNode(h, b, pred, target, x + 2, n, 2);
    assert Turn(h, b, 0, pred, target, n - 1);
    forall y | y in Reach(h, x + 2) && y != x + 2 && y < |h| ensures x !in h[y].children {
      if x in h[y].children {
        ParentIs(h, b, pred, target, x, n, 0, y);
      }
    }
  }

  /** An earlier running sum is used only by the next one. */
  lemma {:induction false} SumLinks(h: Arena, b: nat, pred: seq<nat>, target: nat, k: nat)
    requires Acyclic(h) && MseGraph(h, b, pred, target) && 1 <= k < |pred|
    ensures var x := b + 5 * k;
      && x + 5 in Reach(h, b + 5 * |pred| + 2) && NodeIs(h, x + 5, Add, [x, x + 4])
      && FreshGrad(h, x) && ScalarAt(h, x)
      && forall y :: y in Reach(h, b + 5 * |pred| + 2) && y != x + 5 && y < |h| ==> x !in h[y].children
  {
    var x := b + 5 * k;
    NewNode(h, b, pred, target, x + 5, k + 1, 0);
    assert Turn(h, b, 0, pred, target, k - 1);
    SumsReach(h, b, pred, target, k + 1);
    forall y | y in Reach(h, b + 5 * |pred| + 2) && y != x + 5 && y < |h| ensures x !in h[y].children {
      if x in h[y].children {
        ParentIs(h, b, pred, target, x, k, 0, y);
      }
    }
  }

  /** Each square is used only by the running sum it is added into. */
  lemma {:induction false} PowLinks(h: Arena, b: nat, pred: seq<nat>, target: nat, k: nat)
    requires Acyclic(h) && MseGraph(h, b, pred, target) && k < |pred|
    ensures var x := b + 5 * k + 4;
      && x + 1 in Reach(h, b + 5 * |pred| + 2) && NodeIs(h, x + 1, Add, [x - 4, x])
      && FreshGrad(h, x) && ScalarAt(h, x)
      && forall y :: y in Reach(h, b + 5 * |pred| + 2) && y != x + 1 && y < |h| ==> x !in h[y].children
  {
    var x := b + 5 * k + 4;
    NewNode(h, b, pred, target, x + 1, k + 1, 0);
    assert Turn(h, b, 0, pred, target, k);
    SumsReach(h, b, pred, target, k + 1);
    forall y | y in Reach(h, b + 5 * |pred| + 2) && y != x + 1 && y < |h| ensures x !in h[y].children {
      if x in h[y].children {
        ParentIs(h, b, pred, target, x, k, 4, y);
      }
    }
  }

  /** Each difference is used only by its square, whose exponent is 2. */
  lemma {:induction false} SubLinks(h: Arena, b: nat, pred: seq<nat>, target: nat, k: nat)
    requires Acyclic(h) && MseGraph(h, b, pred, target) && k < |pred|
    ensures var x := b + 5 * k + 2;
      && x + 2 in Reach(h, b + 5 * |pred| + 2) && NodeIs(h, x + 2, Pow, [x, x + 1]) && LeafOf(h, x + 1, 2.0)
      && FreshGrad(h, x) && ScalarAt(h, x) && ScalarAt(h, pred[k])
      && Val(h, x) == Val(h, pred[k]) - TargetAt(k, target)
      && forall y :: y in Reach(h, b + 5 * |pred| + 2) && y != x + 2 && y < |h| ==> x !in h[y].children
  {
    var x := b + 5 * k + 2;
    NewNode(h, b, pred, target, x + 3, k + 1, 0);
    assert Turn(h, b, 0, pred, target, k);
    SumsReach(h, b, pred, target, k + 1);
    ChildReachable(h, b + 5 * |pred| + 2, x + 3, 1);
    forall y | y in Reach(h, b + 5 * |pred| + 2) && y != x + 2 && y < |h| ensures x !in h[y].children {
      if x in h[y].children {
        ParentIs(h, b, pred, target, x, k, 2, y);
      }
    }
  }

  /** A prediction that no caller node uses is used only by its difference. */
  lemma {:induction false} PredLinks(h: Arena, b: nat, pred: seq<nat>, target: nat, k: nat)
    requires Acyclic(h) && MseGraph(h, b, pred, target) && k < |pred| && Distinct(pred)
    requires forall y :: 0 <= y < b ==> pred[k] !in h[y].children
    ensures var q := b + 5 * k + 2;
      && q in Reach(h, b + 5 * |pred| + 2) && NodeIs(h, q, Sub, [pred[k], q - 1]) && pred[k] != q - 1
      && forall y :: y in Reach(h, b + 5 * |pred| + 2) && y != q && y < |h| ==> pred[k] !in h[y].children
  {
    var q := b + 5 * k + 2;
    NewNode(h, b, pred, target, q + 3, k + 1, 0);
    NewNode(h, b, pred, target, q + 2, k, 4);
    assert Turn(h, b, 0, pred, target, k);
    SumsReach(h, b, pred, target, k + 1);
    ChildReachable(h, b + 5 * |pred| + 2, q + 3, 1);
    ChildReachable(h, b + 5 * |pred| + 2, q + 2, 0);
    forall y | y in Reach(h, b + 5 * |pred| + 2) && y != q && y < |h| ensures pred[k] !in h[y].children {
      if b <= y && pred[k] in h[y].children {
        PredParent(h, b, pred, target, k, y);
      }
    }
  }

  /** Among the new nodes, only difference `k` has prediction `k` as a child. */
  lemma {:induction false} PredParent(h: Arena, b: nat, pred: seq<nat>, target: nat, k: nat, y: nat)
    requires MseGraph(h, b, pred, target) && k < |pred| && Distinct(pred)
    requires b <= y < |h| && pred[k] in h[y].children
    ensures y == b + 5 * k + 2
  {
    var j, t := (y - b) / 5, (y - b) % 5;
    NewNode(h, b, pred, target, y, j, t);
    assert pred[k] < b;
    if t == 2 && j < |pred| {
      assert pred[j] < b;
    }
  }

  // ---------------------------------------------------------------- received

  /** The graph `MSE::forward` built after `b` caller nodes, its loss node
      scalar, with every division below the loss defined. */
  predicate Seeded(h: Arena, b: nat, pred: seq<nat>, target: nat) {
    && WellFormed(h) && MseGraph(h, b, pred, target) && |pred| > 0
    && ScalarAt(h, b + 5 * |pred| + 2) && Differentiable(h, b + 5 * |pred| + 2)
  }

  /** The one parent of running sum `k`: the next running sum, or the loss
      for the last one. */
  function SumParent(b: nat, n: nat, k: nat): nat {
    if k == n then b + 5 * n + 2 else b + 5 * k + 5
  }

  /** Running sum `k` received its one parent's contribution. */
  predicate SumFlow(h: Arena, r: Arena, num: Numerics, b: nat, n: nat, k: nat) {
    Received(h, r, num, SumParent(b, n, k), b + 5 * k, 0)
  }

  /** In the backward pass from the loss, running sum `k` gains only what
      its one parent hands down. */
  lemma {:induction false} SumReceived(h: Arena, num: Numerics, b: nat, pred: seq<nat>, target: nat, root: nat, k: nat, q: nat, x: nat)
    requires Seeded(h, b, pred, target) && root == b + 5 * |pred| + 2 && 1 <= k < |pred|
    requires q == b + 5 * k + 5 && x == b + 5 * k
    ensures Received(h, Backward(h, num, root), num, q, x, 0)
  {
    SumLinks(h, b, pred, target, k);
    OnlyChild(h, num, root, q, x, 0);
  }

  /** The last running sum gains only what the loss hands down. */
  lemma {:induction false} LastSumReceived(h: Arena, num: Numerics, b: nat, pred: seq<nat>, target: nat, root: nat, x: nat)
    requires Seeded(h, b, pred, target) && root == b + 5 * |pred| + 2 && x == b + 5 * |pred|
    ensures Received(h, Backward(h, num, root), num, root, x, 0)
  {
    LastSumLinks(h, b, pred, target);
    OnlyChild(h, num, root, root, x, 0);
  }

  /** `SumFlow` is `Received` at the running sum's own positions. */
  lemma {:induction false} SumFlowFrom(num: Numerics, b: nat, n: nat, k: nat, q: nat, x: nat)
    requires q == SumParent(b, n, k) && x == b + 5 * k
    ensures forall h, r :: Received(h, r, num, q, x, 0) ==> SumFlow(h, r, num, b, n, k)
  {
  }

  /** Running sum `k` gains only its parent's share. */
  lemma {:induction false} SumFlowAt(h: Arena, num: Numerics, b: nat, pred: seq<nat>, target: nat, root: nat, k: nat)
    requires Seeded(h, b, pred, target) && root == b + 5 * |pred| + 2 && 1 <= k <= |pred|
    ensures SumFlow(h, Backward(h, num, root), num, b, |pred|, k)
  {
    var q, x := SumParent(b, |pred|, k), b + 5 * k;
    SumFlowFrom(num, b, |pred|, k, q, x);
    if k == |pred| {
      LastSumReceived(h, num, b, pred, target, root, x);
    } else {
      SumReceived(h, num, b, pred, target, root, k, q, x);
    }
  }

  /** Every running sum after the first turn gains only its parent's share. */
  lemma {:induction false} SumsReceived(h: Arena, num: Numerics, b: nat, pred: seq<nat>, target: nat, root: nat)
    requires Seeded(h, b, pred, target) && root == b + 5 * |pred| + 2
    ensures forall k :: 1 <= k <= |pred| ==> SumFlow(h, Backward(h, num, root), num, b, |pred|, k)
  {
    forall k | 1 <= k <= |pred| ensures SumFlow(h, Backward(h, num, root), num, b, |pred|, k) {
      SumFlowAt(h, num, b, pred, target, root, k);
    }
  }

  /** Square `k` gains only what the running sum it is added into hands down. */
  lemma {:induction false} PowReceived(h: Arena, num: Numerics, b: nat, pred: seq<nat>, target: nat, k: nat, root: nat, q: nat, x: nat)
    requires Seeded(h, b, pred, target) && k < |pred| && root == b + 5 * |pred| + 2
    requires q == b + 5 * k + 5 && x == b + 5 * k + 4
    ensures Received(h, Backward(h, num, root), num, q, x, 1)
  {
    PowLinks(h, b, pred, target, k);
    OnlyChild(h, num, root, q, x, 1);
  }

  /** Difference `k` gains only what its square hands down. */
  lemma {:induction false} SubReceived(h: Arena, num: Numerics, b: nat, pred: seq<nat>, target: nat, k: nat, root: nat, q: nat, x: nat)
    requires Seeded(h, b, pred, target) && k < |pred| && root == b + 5 * |pred| + 2
    requires q == b + 5 * k + 4 && x == b + 5 * k + 2
    ensures Received(h, Backward(h, num, root), num, q, x, 0)
  {
    SubLinks(h, b, pred, target, k);
    OnlyChild(h, num, root, q, x, 0);
  }

  /** A prediction listed once and used by no caller node gains only what
      its difference hands down. */
  lemma {:induction false} PredReceived(h: Arena, num: Numerics, b: nat, pred: seq<nat>, target: nat, k: nat, root: nat, q: nat, x: nat)
    requires Seeded(h, b, pred, target) && k < |pred| && Distinct(pred) && root == b + 5 * |pred| + 2
    requires forall y :: 0 <= y < b ==> pred[k] !in h[y].children
    requires q == b + 5 * k + 2 && x == pred[k]
    ensures Received(h, Backward(h, num, root), num, q, x, 0)
  {
    PredLinks(h, b, pred, target, k);
    OnlyChild(h, num, root, q, x, 0);
  }

  /** Everything prediction `k`'s gradient depends on in `r`: the loss kept
      its seed, and each node from the loss down to the prediction gained
      only its parent's share. */
  predicate Flows(h: Arena, r: Arena, num: Numerics, b: nat, pred: seq<nat>, target: nat, k: nat) {
    && Seeded(h, b, pred, target) && k < |pred| && ScalarAt(h, pred[k])
    && GradIs(r, b + 5 * |pred| + 2, Scalar(h[b + 5 * |pred| + 2].grad))
    && (forall j :: 1 <= j <= |pred| ==> SumFlow(h, r, num, b, |pred|, j))
    && Received(h, r, num, b + 5 * k + 5, b + 5 * k + 4, 1)
    && Received(h, r, num, b + 5 * k + 4, b + 5 * k + 2, 0)
    && Received(h, r, num, b + 5 * k + 2, pred[k], 0)
  }

  /** The backward pass from the loss has all of these. */
  lemma {:induction false} BackwardFlows(h: Arena, num: Numerics, b: nat, pred: seq<nat>, target: nat, k: nat, root: nat)
    requires Seeded(h, b, pred, target) && k < |pred| && Distinct(pred) && ScalarAt(h, pred[k])
    requires forall y :: 0 <= y < b ==> pred[k] !in h[y].children
    requires root == b + 5 * |pred| + 2
    ensures Flows(h, Backward(h, num, root), num, b, pred, target, k)
  {
    RootKept(h, num, root);
    SumsReceived(h, num, b, pred, target, root);
    PowReceived(h, num, b, pred, target, k, root, b + 5 * k + 5, b + 5 * k + 4);
    SubReceived(h, num, b, pred, target, k, root, b + 5 * k + 4, b + 5 * k + 2);
    PredReceived(h, num, b, pred, target, k, root, b + 5 * k + 2, pred[k]);
  }

  // ---------------------------------------------------------------- the chain

  /** The five nodes of turn `k`, by position. */
  lemma {:induction false} TurnNodes(h: Arena, b: nat, pred: seq<nat>, target: nat, k: nat)
    requires MseGraph(h, b, pred, target) && k < |pred|
    ensures MseTermAt(h, b + 5 * k, pred[k], TargetAt(k, target))
  {
    assert Turn(h, b, 0, pred, target, k);
  }

  /** The last running sum gets the loss gradient divided by `N`. */
  lemma {:induction false} LastSumStep(h: Arena, r: Arena, num: Numerics, b: nat, pred: seq<nat>, target: nat, v: real)
    requires Seeded(h, b, pred, target) && SumFlow(h, r, num, b, |pred|, |pred|)
    requires v == Scalar(h[b + 5 * |pred| + 2].grad) / (|pred| as real)
    ensures GradIs(r, b + 5 * |pred| + 2, Scalar(h[b + 5 * |pred| + 2].grad)) ==> GradIs(r, b + 5 * |pred|, v)
  {
    var root := b + 5 * |pred| + 2;
    LastSumLinks(h, b, pred, target);
    FreshScalar(h, b + 5 * |pred|);
    PassDiv(h, r, num, root, b + 5 * |pred|, Scalar(h[root].grad), |pred| as real, v);
  }

  /** An earlier running sum `x` gets the gradient of the next one. */
  lemma {:induction false} SumStep(h: Arena, r: Arena, num: Numerics, b: nat, pred: seq<nat>, target: nat, k: nat, x: nat, v: real)
    requires Seeded(h, b, pred, target) && 1 <= k < |pred| && x == b + 5 * k
    requires SumFlow(h, r, num, b, |pred|, k)
    ensures GradIs(r, x + 5, v) ==> GradIs(r, x, v)
  {
    SumLinks(h, b, pred, target, k);
    FreshScalar(h, x);
    PassOn(h, r, num, x + 5, x, 0, v, v);
  }

  /** Every running sum `x = b + 5k`, `k >= 1`, holds `dy / N`: the loss
      divides by `N`, and each `add` passes its gradient on unchanged. */
  lemma {:induction false} SumChain(h: Arena, r: Arena, num: Numerics, b: nat, pred: seq<nat>, target: nat, k: nat, x: nat, v: real)
    requires Seeded(h, b, pred, target) && 1 <= k <= |pred| && x == b + 5 * k
    requires GradIs(r, b + 5 * |pred| + 2, Scalar(h[b + 5 * |pred| + 2].grad))
    requires forall j :: 1 <= j <= |pred| ==> SumFlow(h, r, num, b, |pred|, j)
    requires v == Scalar(h[b + 5 * |pred| + 2].grad) / (|pred| as real)
    ensures GradIs(r, x, v)
    decreases |pred| - k
  {
    if k == |pred| {
      LastSumStep(h, r, num, b, pred, target, v);
    } else {
      SumChain(h, r, num, b, pred, target, k + 1, x + 5, v);
      SumStep(h, r, num, b, pred, target, k, x, v);
    }
  }

  /** Square `x` of turn `k` gets the gradient of the running sum `s` it is
      added into. */
  lemma {:induction false} PowStep(h: Arena, r: Arena, num: Numerics, b: nat, pred: seq<nat>, target: nat, k: nat, s: nat, x: nat, v: real)
    requires Seeded(h, b, pred, target) && k < |pred| && s == b + 5 * k + 5 && x == b + 5 * k + 4
    requires Received(h, r, num, s, x, 1)
    ensures GradIs(r, s, v) ==> GradIs(r, x, v)
  {
    TurnNodes(h, b, pred, target, k);
    FreshScalar(h, x);
    PassOn(h, r, num, s, x, 1, v, v);
  }

  /** Difference `x` of turn `k` gets the gradient `v` of its square `q`
      times `2 * d^1`, where `d = p_k - t_k` is its value. */
  lemma {:induction false} SubStep(h: Arena, r: Arena, num: Numerics, b: nat, pred: seq<nat>, target: nat, k: nat, q: nat, x: nat, v: real, w: real)
    requires Seeded(h, b, pred, target) && k < |pred| && q == b + 5 * k + 4 && x == b + 5 * k + 2
    requires Received(h, r, num, q, x, 0) && ScalarAt(h, pred[k])
    requires w == v * (2.0 * num.pow(Val(h, pred[k]) - TargetAt(k, target), 1.0))
    ensures GradIs(r, q, v) ==> GradIs(r, x, w)
  {
    TurnNodes(h, b, pred, target, k);
    FreshScalar(h, x);
    SquareSlope(num, Scalar(h[x].grad), v, Val(h, x), Val(h, pred[k]) - TargetAt(k, target));
    PassPow(h, r, num, q, x, v, 2.0, w);
  }

  /** Prediction `k` adds the gradient `w` of its difference `q` to its own. */
  lemma {:induction false} PredStep(h: Arena, r: Arena, num: Numerics, b: nat, pred: seq<nat>, target: nat, k: nat, q: nat, w: real, z: real)
    requires Seeded(h, b, pred, target) && k < |pred| && q == b + 5 * k + 2
    requires Received(h, r, num, q, pred[k], 0) && ScalarAt(h, pred[k])
    requires z == Scalar(h[pred[k]].grad) + w
    ensures GradIs(r, q, w) ==> GradIs(r, pred[k], z)
  {
    NewNode(h, b, pred, target, q, k, 2);
    PassOn(h, r, num, q, pred[k], 0, w, z);
  }

  /** From the running sum `s` it feeds, turn `k` hands its prediction
      `v * 2 * (p_k - t_k)^1`: the `add` passes `v` to the square, the
      square hands its base `v * 2 * d^(2-1)`, and the `sub` passes that on. */
  lemma {:induction false} TurnChain(h: Arena, r: Arena, num: Numerics, b: nat, pred: seq<nat>, target: nat, k: nat, s: nat, v: real, z: real)
    requires Flows(h, r, num, b, pred, target, k) && s == b + 5 * k + 5
    requires z == Scalar(h[pred[k]].grad) + v * (2.0 * num.pow(Val(h, pred[k]) - TargetAt(k, target), 1.0))
    ensures GradIs(r, s, v) ==> GradIs(r, pred[k], z)
  {
    PowStep(h, r, num, b, pred, target, k, s, b + 5 * k + 4, v);
    SubStep(h, r, num, b, pred, target, k, b + 5 * k + 4, b + 5 * k + 2, v,
            v * (2.0 * num.pow(Val(h, pred[k]) - TargetAt(k, target), 1.0)));
    PredStep(h, r, num, b, pred, target, k, b + 5 * k + 2,
             v * (2.0 * num.pow(Val(h, pred[k]) - TargetAt(k, target), 1.0)), z);
  }

  /** `0 + v * 2 * d^(2-1)` is `v * 2 * d^1`. */
  lemma {:induction false} SquareSlope(num: Numerics, z: real, v: real, a: real, d: real)
    requires z == 0.0 && a == d
    ensures z + v * (2.0 * num.pow(a, 2.0 - 1.0)) == v * (2.0 * num.pow(d, 1.0))
  {
    assert 2.0 - 1.0 == 1.0;
  }

  /** Where `r` has these flows, prediction `k` gained
      `dy / N * 2 * (p_k - t_k)^1`. */
  lemma {:induction false} FlowGrad(h: Arena, r: Arena, num: Numerics, b: nat, pred: seq<nat>, target: nat, k: nat, s: nat, v: real, z: real)
    requires Flows(h, r, num, b, pred, target, k) && s == b + 5 * k + 5
    requires v == Scalar(h[b + 5 * |pred| + 2].grad) / (|pred| as real)
    requires z == Scalar(h[pred[k]].grad) + v * (2.0 * num.pow(Val(h, pred[k]) - TargetAt(k, target), 1.0))
    ensures GradIs(r, pred[k], z)
  {
    SumChain(h, r, num, b, pred, target, k + 1, s, v);
    TurnChain(h, r, num, b, pred, target, k, s, v, z);
  }

  /** `FlowGrad` for every arena with these flows. */
  lemma {:induction false} FlowsGrad(h: Arena, num: Numerics, b: nat, pred: seq<nat>, target: nat, k: nat, v: real, z: real)
    requires Seeded(h, b, pred, target) && k < |pred|
    requires v == Scalar(h[b + 5 * |pred| + 2].grad) / (|pred| as real)
    requires ScalarAt(h, pred[k]) && z == Scalar(h[pred[k]].grad) + v * (2.0 * num.pow(Val(h, pred[k]) - TargetAt(k, target), 1.0))
    ensures forall r :: Flows(h, r, num, b, pred, target, k) ==> GradIs(r, pred[k], z)
  {
    forall r | Flows(h, r, num, b, pred, target, k) ensures GradIs(r, pred[k], z) {
      FlowGrad(h, r, num, b, pred, target, k, b + 5 * k + 5, v, z);
    }
  }

  /** Prediction `k` gains `dy / N * 2 * (p_k - t_k)^1`, where `dy` is the
      gradient the loss was seeded with. */
  lemma {:induction false} ChainGrad(h: Arena, num: Numerics, b: nat, pred: seq<nat>, target: nat, k: nat, root: nat, v: real, z: real)
    requires Seeded(h, b, pred, target) && k < |pred| && Distinct(pred) && ScalarAt(h, pred[k])
    requires forall y :: 0 <= y < b ==> pred[k] !in h[y].children
    requires root == b + 5 * |pred| + 2 && v == Scalar(h[root].grad) / (|pred| as real)
    requires z == Scalar(h[pred[k]].grad) + v * (2.0 * num.pow(Val(h, pred[k]) - TargetAt(k, target), 1.0))
    ensures GradIs(Backward(h, num, root), pred[k], z)
  {
    FlowsGrad(h, num, b, pred, target, k, v, z);
    BackwardFlows(h, num, b, pred, target, k, root);
  }

  /** The graph is differentiable from its loss when the caller's nodes are:
      the only new division is by `N`, which is not zero. */
  lemma {:induction false} MseDifferentiable(h: Arena, b: nat, pred: seq<nat>, target: nat)
    requires WellFormed(h) && MseGraph(h, b, pred, target) && |pred| > 0
    requires forall x :: 0 <= x < b ==> DefinedAt(h, x)
    ensures Differentiable(h, b + 5 * |pred| + 2)
  {
    forall x | x in Reach(h, b + 5 * |pred| + 2) ensures x < |h| && DefinedAt(h, x) {
      if b <= x {
        NewNode(h, b, pred, target, x, (x - b) / 5, (x - b) % 5);
        if x == b + 5 * |pred| + 2 {
          NewNode(h, b, pred, target, x - 1, |pred|, 1);
        }
      }
    }
  }

  // ---------------------------------------------------------------- MSE::forward, then backward

  /** The arena `MSE::forward` returns, with its loss node seeded with `dy`. */
  function SeededMse(g: Arena, num: Numerics, pred: seq<nat>, target: nat, dy: Mat): (h: Arena)
    requires WellFormed(g) && AllScalar(g, pred) && |pred| > 0
    ensures |h| == |g| + 5 * |pred| + 3
  {
    SetGrad(Mse(g, num, pred, target).0, |g| + 5 * |pred| + 2, dy)
  }

  /** Everything `ChainGrad` needs of `h`, with `v = dy / N` and `z` what
      prediction `i` must end with. */
  predicate ChainReady(h: Arena, num: Numerics, b: nat, pred: seq<nat>, target: nat, i: nat, v: real, z: real) {
    && Seeded(h, b, pred, target) && Distinct(pred) && i < |pred| && ScalarAt(h, pred[i])
    && (forall y :: 0 <= y < b ==> pred[i] !in h[y].children)
    && v == Scalar(h[b + 5 * |pred| + 2].grad) / (|pred| as real)
    && z == Scalar(h[pred[i]].grad) + v * (2.0 * num.pow(Val(h, pred[i]) - TargetAt(i, target), 1.0))
  }

  /** `ChainGrad` for every ready arena. */
  lemma {:induction false} ReadyGrad(num: Numerics, b: nat, pred: seq<nat>, target: nat, i: nat, root: nat, v: real, z: real)
    requires root == b + 5 * |pred| + 2
    ensures forall h :: ChainReady(h, num, b, pred, target, i, v, z) ==>
      WellFormed(h) && root < |h| && Differentiable(h, root) && GradIs(Backward(h, num, root), pred[i], z)
  {
    forall h | ChainReady(h, num, b, pred, target, i, v, z)
      ensures WellFormed(h) && root < |h| && Differentiable(h, root) && GradIs(Backward(h, num, root), pred[i], z)
    {
      ChainGrad(h, num, b, pred, target, i, root, v, z);
    }
  }

  /** The seeded arena is the loss graph over the caller's unchanged nodes,
      with the seed at the loss. */
  lemma {:induction false} SeededMseReady(g: Arena, num: Numerics, pred: seq<nat>, target: nat, dy: Mat, i: nat, v: real, z: real)
    requires WellFormed(g) && AllScalar(g, pred) && |pred| > 0 && Distinct(pred) && i < |pred|
    requires Valid(dy) && dy.rows == 1 && dy.cols == 1
    requires forall x :: 0 <= x < |g| ==> DefinedAt(g, x)
    requires forall y :: 0 <= y < |g| ==> pred[i] !in g[y].children
    requires v == Scalar(dy) / (|pred| as real)
    requires z == Scalar(g[pred[i]].grad) + v * (2.0 * num.pow(Val(g, pred[i]) - TargetAt(i, target), 1.0))
    ensures ChainReady(SeededMse(g, num, pred, target, dy), num, |g|, pred, target, i, v, z)
  {
    SeedReady(g, Mse(g, num, pred, target).0, num, pred, target, dy, i, v, z);
  }

  /** Seeding the loss of a loss graph built over `g` makes it ready. */
  lemma {:induction false} SeedReady(g: Arena, h0: Arena, num: Numerics, pred: seq<nat>, target: nat, dy: Mat, i: nat, v: real, z: real)
    requires WellFormed(g) && AllScalar(g, pred) && |pred| > 0 && Distinct(pred) && i < |pred|
    requires WellFormed(h0) && Extends(g, h0) && MseGraph(h0, |g|, pred, target) && ScalarAt(h0, |g| + 5 * |pred| + 2)
    requires Valid(dy) && dy.rows == 1 && dy.cols == 1
    requires forall x :: 0 <= x < |g| ==> DefinedAt(g, x)
    requires forall y :: 0 <= y < |g| ==> pred[i] !in g[y].children
    requires v == Scalar(dy) / (|pred| as real)
    requires z == Scalar(g[pred[i]].grad) + v * (2.0 * num.pow(Val(g, pred[i]) - TargetAt(i, target), 1.0))
    ensures ChainReady(SetGrad(h0, |g| + 5 * |pred| + 2, dy), num, |g|, pred, target, i, v, z)
  {
    SeedFrame(g, h0, pred, target, dy);
    FrameReady(g, SetGrad(h0, |g| + 5 * |pred| + 2, dy), num, pred, target, dy, i, v, z);
  }

  /** Seeding keeps the caller's nodes and the loss graph, and every node
      the loss reaches stays defined. */
  lemma {:induction false} SeedFrame(g: Arena, h0: Arena, pred: seq<nat>, target: nat, dy: Mat)
    requires WellFormed(g) && AllScalar(g, pred) && |pred| > 0
    requires WellFormed(h0) && Extends(g, h0) && MseGraph(h0, |g|, pred, target) && ScalarAt(h0, |g| + 5 * |pred| + 2)
    requires Valid(dy) && dy.rows == 1 && dy.cols == 1
    requires forall x :: 0 <= x < |g| ==> DefinedAt(g, x)
    ensures var h := SetGrad(h0, |g| + 5 * |pred| + 2, dy);
      && Seeded(h, |g|, pred, target) && h[|g| + 5 * |pred| + 2].grad == dy
      && forall y :: 0 <= y < |g| ==> h[y] == g[y]
  {
    var b, R := |g|, |g| + 5 * |pred| + 2;
    var h := SetGrad(h0, R, dy);
    SeededGraph(h0, b, pred, target, dy);
    assert h[R].value == h0[R].value;
    forall y | 0 <= y < b ensures h[y] == g[y] {
      assert h0[y] == g[y];
    }
    forall x | 0 <= x < b ensures DefinedAt(h, x) {
      DefinedAtPrefix(g, h, x);
    }
    MseDifferentiable(h, b, pred, target);
  }

  /** A seeded loss graph over the caller's unchanged nodes is ready. */
  lemma {:induction false} FrameReady(g: Arena, h: Arena, num: Numerics, pred: seq<nat>, target: nat, dy: Mat, i: nat, v: real, z: real)
    requires AllScalar(g, pred) && Distinct(pred) && i < |pred|
    requires Seeded(h, |g|, pred, target) && h[|g| + 5 * |pred| + 2].grad == dy
    requires forall y :: 0 <= y < |g| ==> h[y] == g[y]
    requires forall y :: 0 <= y < |g| ==> pred[i] !in g[y].children
    requires Valid(dy) && dy.rows == 1 && dy.cols == 1 && v == Scalar(dy) / (|pred| as real)
    requires z == Scalar(g[pred[i]].grad) + v * (2.0 * num.pow(Val(g, pred[i]) - TargetAt(i, target), 1.0))
    ensures ChainReady(h, num, |g|, pred, target, i, v, z)
  {
    assert pred[i] < |g|;
    assert h[pred[i]] == g[pred[i]];
  }

  /** What `MseGradient` asks of the caller, with `v = dy / N` and `z`
      what prediction `i` must end with. */
  predicate Prepared(g: Arena, num: Numerics, pred: seq<nat>, target: nat, dy: Mat, i: nat, v: real, z: real) {
    && WellFormed(g) && AllScalar(g, pred) && |pred| > 0 && Distinct(pred) && i < |pred|
    && Valid(dy) && dy.rows == 1 && dy.cols == 1
    && (forall x :: 0 <= x < |g| ==> DefinedAt(g, x))
    && (forall y :: 0 <= y < |g| ==> pred[i] !in g[y].children)
    && v == Scalar(dy) / (|pred| as real)
    && z == Scalar(g[pred[i]].grad) + v * (2.0 * num.pow(Val(g, pred[i]) - TargetAt(i, target), 1.0))
  }

  /** The caller's side of `MseGradient`, bundled. */
  lemma {:induction false} MsePrepared(g: Arena, num: Numerics, pred: seq<nat>, target: nat, dy: Mat, i: nat)
    requires WellFormed(g) && AllScalar(g, pred) && |pred| > 0 && Distinct(pred) && i < |pred|
    requires Valid(dy) && dy.rows == 1 && dy.cols == 1
    requires forall x :: 0 <= x < |g| ==> DefinedAt(g, x)
    requires forall y :: 0 <= y < |g| ==> pred[i] !in g[y].children
    ensures Prepared(g, num, pred, target, dy, i, Scalar(dy) / (|pred| as real),
                     Scalar(g[pred[i]].grad)
                       + Scalar(dy) / (|pred| as real) * (2.0 * num.pow(Val(g, pred[i]) - TargetAt(i, target), 1.0)))
  {
  }

  /** `MseGradient` at named values. */
  lemma {:induction false} MseGradientAt(g: Arena, num: Numerics, pred: seq<nat>, target: nat, dy: Mat, i: nat, root: nat, v: real, z: real)
    requires Prepared(g, num, pred, target, dy, i, v, z) && root == |g| + 5 * |pred| + 2
    ensures var h := SeededMse(g, num, pred, target, dy);
      WellFormed(h) && root < |h| && Differentiable(h, root) && GradIs(Backward(h, num, root), pred[i], z)
  {
    SeededMseReady(g, num, pred, target, dy, i, v, z);
    ReadyGrad(num, |g|, pred, target, i, root, v, z);
  }

  /** `MSE::forward` followed by `backward` from its loss seeded with the
      1x1 gradient `dy`: each prediction `p_i` that the caller's graph does
      not use gains `dy / N * 2 * (p_i - t_i)^1`, the derivative of the mean
      of squared errors. */
  lemma {:induction false} MseGradient(g: Arena, num: Numerics, pred: seq<nat>, target: nat, dy: Mat, i: nat)
    requires WellFormed(g) && AllScalar(g, pred) && |pred| > 0 && Distinct(pred) && i < |pred|
    requires Valid(dy) && dy.rows == 1 && dy.cols == 1
    requires forall x :: 0 <= x < |g| ==> DefinedAt(g, x)
    requires forall y :: 0 <= y < |g| ==> pred[i] !in g[y].children
    ensures var h := SeededMse(g, num, pred, target, dy);
      && WellFormed(h) && Differentiable(h, |g| + 5 * |pred| + 2)
      && GradIs(Backward(h, num, |g| + 5 * |pred| + 2), pred[i],
                Scalar(g[pred[i]].grad)
                  + Scalar(dy) / (|pred| as real) * (2.0 * num.pow(Val(g, pred[i]) - TargetAt(i, target), 1.0)))
  {
    MsePrepared(g, num, pred, target, dy, i);
    MseGradientAt(g, num, pred, target, dy, i, |g| + 5 * |pred| + 2, Scalar(dy) / (|pred| as real),
                  Scalar(g[pred[i]].grad)
                    + Scalar(dy) / (|pred| as real) * (2.0 * num.pow(Val(g, pred[i]) - TargetAt(i, target), 1.0)));
  }

  /** The loss test's arena: predictions 0.1 and 0.9 as fresh leaves. */
  lemma {:induction false} TestArena()
    ensures var g := Leaves([], [0.1, 0.9]);
      |g| == 2 && WellFormed(g) && LeafOf(g, 0, 0.1) && LeafOf(g, 1, 0.9)
  {
  }

  /** Over the loss test's two leaves, with the seed 1 and `pow(x, 1) = x`,
      each prediction's share `1 / 2 * 2 * (p_i - t_i)` is 0.1 and -0.1. */
  lemma {:induction false} ExamplePrepared(g: Arena, num: Numerics)
    requires |g| == 2 && WellFormed(g) && LeafOf(g, 0, 0.1) && LeafOf(g, 1, 0.9)
    requires forall x :: num.pow(x, 1.0) == x
    ensures AllScalar(g, [0, 1])
    ensures Prepared(g, num, [0, 1], 1, Fill(1, 1, 1.0), 0, 0.5, 0.1)
    ensures Prepared(g, num, [0, 1], 1, Fill(1, 1, 1.0), 1, 0.5, -0.1)
  {
    PairLeaves(g, 0.1, 0.9);
    assert Shaped(g, 0) && Shaped(g, 1);
    assert num.pow(0.1 - 0.0, 1.0) == 0.1 - 0.0;
    assert num.pow(0.9 - 1.0, 1.0) == 0.9 - 1.0;
  }

  /** The loss test's numbers: after `set_grad([[1.0]])` and `backward`,
      predictions 0.1 and 0.9 against target 1 hold gradients 0.1 and -0.1
      (`TestArena` builds such an arena). */
  lemma {:induction false} MseGradExample(g: Arena, num: Numerics)
    requires |g| == 2 && WellFormed(g) && LeafOf(g, 0, 0.1) && LeafOf(g, 1, 0.9)
    requires forall x :: num.pow(x, 1.0) == x
    ensures AllScalar(g, [0, 1]) &&
      var h := SeededMse(g, num, [0, 1], 1, Fill(1, 1, 1.0));
      && WellFormed(h) && 14 < |h| && Differentiable(h, 14)
      && GradIs(Backward(h, num, 14), 0, 0.1) && GradIs(Backward(h, num, 14), 1, -0.1)
  {
    ExamplePrepared(g, num);
    MseGradientAt(g, num, [0, 1], 1, Fill(1, 1, 1.0), 0, 14, 0.5, 0.1);
    MseGradientAt(g, num, [0, 1], 1, Fill(1, 1, 1.0), 1, 14, 0.5, -0.1);
  }
}
