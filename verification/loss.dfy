/** The two losses built on the engine: the negated log of the target's
    predicted probability, and the mean squared error against a one-hot
    target. Both return a fresh node of the caller's arena. */
module Loss {
  import opened Matrix
  import opened Autograd
  import opened Topo
  import opened BackwardPass
  import opened Gradients
  import opened Nn

  // ---------------------------------------------------------------- cross-entropy

  /** `SoftmaxCrossEntropyLoss::forward`, and `cross_entropy_loss`, which
      builds the same graph: a Log node over `pred[target]` (index |g|), then
      the Neg node over it (index |g|+1), which is the loss. Indexing past
      the end of `pred` panics, hence the bound on `target`. */
  function CrossEntropy(g: Arena, num: Numerics, pred: seq<nat>, target: nat): (r: (Arena, nat))
    requires WellFormed(g) && target < |pred| && forall k :: 0 <= k < |pred| ==> pred[k] < |g|
    ensures WellFormed(r.0) && |r.0| == |g| + 2 && Extends(g, r.0) && r.1 == |g| + 1
    ensures r.0[|g|].op == Log && r.0[|g|].children == [pred[target]] && IsZero(r.0[|g|].grad)
    ensures r.0[r.1].op == Neg && r.0[r.1].children == [|g|]
    ensures SameShape(r.0[r.1].value, g[pred[target]].value)
    ensures forall i, j :: 0 <= i < g[pred[target]].value.rows && 0 <= j < g[pred[target]].value.cols ==>
              r.0[r.1].value.data[i][j] == -num.ln(Max(g[pred[target]].value.data[i][j], num.eps))
  {
    var a := pred[target];
    var g1 := LogOp(g, num, a);
    AppendedExtends(g, g1, [a], Log);
    var g2 := NegOp(g1, |g|);
    AppendedExtends(g1, g2, [|g|], Neg);
    ExtendsTrans(g, g1, g2);
    (g2, |g| + 1)
  }

  /** `after` is `before` minus `dy / x`, entry by entry, for a divisor `x`
      with no zero entry. */
  predicate LessQuotient(before: Mat, after: Mat, dy: Mat, x: Mat) {
    && Valid(before) && Valid(after) && Valid(dy) && Valid(x)
    && SameShape(before, x) && SameShape(after, x) && SameShape(dy, x) && Nonzero(x)
    && forall i, j :: 0 <= i < x.rows && 0 <= j < x.cols ==>
         after.data[i][j] == before.data[i][j] - dy.data[i][j] / x.data[i][j]
  }

  /** The arena the loss's backward pass runs on: the loss graph with the
      loss node's gradient seeded with `dy`. */
  function CrossEntropySeeded(g: Arena, num: Numerics, pred: seq<nat>, target: nat, dy: Mat): (h: Arena)
    requires WellFormed(g) && target < |pred| && forall k :: 0 <= k < |pred| ==> pred[k] < |g|
    requires Valid(dy) && SameShape(dy, g[pred[target]].value)
    ensures WellFormed(h) && |h| == |g| + 2 && h[|g| + 1].grad == dy
    ensures forall i :: 0 <= i < |g| ==> h[i] == g[i]
    ensures h[|g|].op == Log && h[|g|].children == [pred[target]] && IsZero(h[|g|].grad)
    ensures h[|g| + 1].op == Neg && h[|g| + 1].children == [|g|]
  {
    var (h0, loss) := CrossEntropy(g, num, pred, target);
    SetGrad(h0, loss, dy)
  }

  /** The loss graph reaches its two new nodes and whatever the target's
      prediction reaches. */
  lemma {:induction false} NegLogReach(g: Arena, h: Arena, a: nat)
    requires Acyclic(g) && Acyclic(h) && a < |g| && |h| == |g| + 2
    requires forall i :: 0 <= i < |g| ==> h[i].children == g[i].children
    requires h[|g|].children == [a] && h[|g| + 1].children == [|g|]
    ensures Reach(h, |g| + 1) == {|g| + 1, |g|} + Reach(g, a)
  {
    ReachPrefix(g, h, a);
    assert ReachKids(h, |g|, 0) == Reach(h, a);
    assert ReachKids(h, |g| + 1, 0) == Reach(h, |g|);
  }

  /** The loss graph's divisions are defined when the prediction is nonzero
      and its own graph is differentiable. */
  lemma {:induction false} CrossEntropyDifferentiable(g: Arena, num: Numerics, pred: seq<nat>, target: nat, dy: Mat)
    requires WellFormed(g) && target < |pred| && forall k :: 0 <= k < |pred| ==> pred[k] < |g|
    requires Valid(dy) && SameShape(dy, g[pred[target]].value)
    requires Valid(g[pred[target]].value) && Nonzero(g[pred[target]].value)
    requires Differentiable(g, pred[target])
    ensures var h := CrossEntropySeeded(g, num, pred, target, dy);
      && Reach(h, |g| + 1) == {|g| + 1, |g|} + Reach(g, pred[target]) && Differentiable(h, |g| + 1)
      && forall x :: x in Reach(h, |g| + 1) && x < |g| ==> x in Reach(g, pred[target])
  {
    var h := CrossEntropySeeded(g, num, pred, target, dy);
    NegLogDifferentiable(g, h, pred[target]);
  }

  /** `neg(log(a))` appended to an arena: its reach is the two new nodes and
      what `a` reaches, and its divisions are defined when `a` has no zero
      entry and `a`'s own graph is differentiable. */
  lemma {:induction false} NegLogDifferentiable(g: Arena, h: Arena, a: nat)
    requires WellFormed(g) && WellFormed(h) && a < |g| && |h| == |g| + 2
    requires forall i :: 0 <= i < |g| ==> h[i] == g[i]
    requires h[|g|].op == Log && h[|g|].children == [a] && h[|g| + 1].op == Neg && h[|g| + 1].children == [|g|]
    requires Valid(g[a].value) && Nonzero(g[a].value) && Differentiable(g, a)
    ensures Reach(h, |g| + 1) == {|g| + 1, |g|} + Reach(g, a) && Differentiable(h, |g| + 1)
    ensures forall x :: x in Reach(h, |g| + 1) && x < |g| ==> x in Reach(g, a)
  {
    NegLogReach(g, h, a);
    assert Differentiable(h, |g| + 1) by {
      NegLogDefined(g, h, a);
      DifferentiablePrefix(g, h, a, |g| + 1, |g|);
    }
    NegLogBelow(g, h, a);
  }

  /** What the loss graph reaches among the caller's nodes, the prediction
      reaches already. */
  lemma {:induction false} NegLogBelow(g: Arena, h: Arena, a: nat)
    requires Acyclic(g) && Acyclic(h) && a < |g| && |h| == |g| + 2
    requires forall i :: 0 <= i < |g| ==> h[i].children == g[i].children
    requires h[|g|].children == [a] && h[|g| + 1].children == [|g|]
    ensures forall x :: x in Reach(h, |g| + 1) && x < |g| ==> x in Reach(g, a)
  {
    NegLogReach(g, h, a);
    NewBelow(Reach(h, |g| + 1), Reach(g, a), |g|);
  }

  /** The Log node over a nonzero `a`, and the Neg node over a Log node,
      have defined divisions. */
  lemma {:induction false} NegLogDefined(g: Arena, h: Arena, a: nat)
    requires WellFormed(h) && a < |g| && |h| == |g| + 2 && h[a] == g[a]
    requires h[|g|].op == Log && h[|g|].children == [a] && h[|g| + 1].op == Neg
    requires Nonzero(g[a].value)
    ensures DefinedAt(h, |g|) && DefinedAt(h, |g| + 1)
  {
  }

  /** The entries of `{m + 1, m} + s` below `m` are those of `s`. */
  lemma {:induction false} NewBelow(r: set<nat>, s: set<nat>, m: nat)
    requires r == {m + 1, m} + s
    ensures forall x :: x in r && x < m ==> x in s
  {
  }

  /** A root whose reach is itself, one more node `q`, both with defined
      divisions, and the reach of a differentiable node of an arena prefix is
      differentiable. */
  lemma {:induction false} DifferentiablePrefix(g: Arena, h: Arena, a: nat, root: nat, q: nat)
    requires WellFormed(g) && WellFormed(h) && a < |g| <= |h| && root < |h| && q < |h|
    requires forall i :: 0 <= i < |g| ==> h[i] == g[i]
    requires Differentiable(g, a)
    requires Reach(h, root) == {root, q} + Reach(g, a)
    requires DefinedAt(h, root) && DefinedAt(h, q)
    ensures Differentiable(h, root)
  {
    forall x | x in Reach(h, root) ensures x < |h| && DefinedAt(h, x) {
      if x != root && x != q {
        DefinedAtPrefix(g, h, x);
      }
    }
  }

  /** With the loss seeded with `dy`, `backward` adds `-dy / p` to the target
      prediction `p` (the Log rule divides by the unclamped input), and leaves
      every node of the caller's arena that `p` does not reach as it was: the
      other predictions gain nothing. */
  lemma {:induction false} CrossEntropyGrad(g: Arena, num: Numerics, pred: seq<nat>, target: nat, dy: Mat)
    requires WellFormed(g) && target < |pred| && forall k :: 0 <= k < |pred| ==> pred[k] < |g|
    requires Valid(dy) && SameShape(dy, g[pred[target]].value)
    requires Valid(g[pred[target]].value) && Nonzero(g[pred[target]].value)
    requires Differentiable(g, pred[target])
    ensures var h := CrossEntropySeeded(g, num, pred, target, dy);
      && Differentiable(h, |g| + 1)
      && LessQuotient(g[pred[target]].grad, Backward(h, num, |g| + 1)[pred[target]].grad, dy, g[pred[target]].value)
      && forall b :: 0 <= b < |g| && b !in Reach(g, pred[target]) ==> Backward(h, num, |g| + 1)[b] == g[b]
  {
    var a := pred[target];
    var h := CrossEntropySeeded(g, num, pred, target, dy);
    var n := |g| + 1;
    assert Differentiable(h, n) && forall x :: x in Reach(h, n) && x < |g| ==> x in Reach(g, a) by {
      CrossEntropyDifferentiable(g, num, pred, target, dy);
    }
    NegLogGradAt(g, h, num, a, dy);
    OthersKeep(g, h, num, a);
  }

  /** The target prediction's share, stated over the caller's arena. */
  lemma {:induction false} NegLogGradAt(g: Arena, h: Arena, num: Numerics, a: nat, dy: Mat)
    requires a < |g| && WellFormed(h) && |h| == |g| + 2 && h[a] == g[a]
    requires h[|g|].op == Log && h[|g|].children == [a] && IsZero(h[|g|].grad)
    requires h[|g| + 1].op == Neg && h[|g| + 1].children == [|g|] && h[|g| + 1].grad == dy
    requires Differentiable(h, |g| + 1) && Valid(g[a].value) && Nonzero(g[a].value)
    ensures LessQuotient(g[a].grad, Backward(h, num, |g| + 1)[a].grad, dy, g[a].value)
  {
    NegLogGrad(h, num, |g| + 1, |g|, a);
  }

  /** Nodes of the caller's arena outside the prediction's reach keep
      everything. */
  lemma {:induction false} OthersKeep(g: Arena, h: Arena, num: Numerics, a: nat)
    requires a < |g| && WellFormed(h) && |g| + 2 == |h| && Differentiable(h, |g| + 1)
    requires forall i :: 0 <= i < |g| ==> h[i] == g[i]
    requires forall x :: x in Reach(h, |g| + 1) && x < |g| ==> x in Reach(g, a)
    requires Acyclic(g)
    ensures forall b :: 0 <= b < |g| && b !in Reach(g, a) ==> Backward(h, num, |g| + 1)[b] == g[b]
  {
    forall b | 0 <= b < |g| && b !in Reach(g, a) ensures Backward(h, num, |g| + 1)[b] == g[b] {
      BackwardKeeps(h, num, |g| + 1, b);
    }
  }

  /** In the chain `n -> l -> a` of single-child nodes, `l` is reachable from
      `n` and the only node reachable from `n` with `a` as a child. */
  lemma {:induction false} ChainParents(h: Arena, n: nat, l: nat, a: nat)
    requires Acyclic(h) && a < l < n < |h| && h[n].children == [l] && h[l].children == [a]
    ensures l in Reach(h, n)
    ensures forall y :: y in Reach(h, n) && y != l && y < |h| ==> a !in h[y].children
  {
    KidInReachKids(h, n, 0, 0);
    NoOtherParent(h, l, a);
    forall y | y in Reach(h, n) && y != l && y < |h| ensures a !in h[y].children {
      if y != n {
        ReachNotRoot(h, n, y);
      }
    }
  }

  /** The two hops of the gradient through `-log(p)`: the Neg node `n`
      passes `-dy` to the Log node `l`, whose rule divides that by `p`. */
  lemma {:induction false} NegLogGrad(h: Arena, num: Numerics, n: nat, l: nat, a: nat)
    requires WellFormed(h) && a < l < n < |h| && Differentiable(h, n)
    requires h[n].op == Neg && h[n].children == [l] && h[l].op == Log && h[l].children == [a]
    requires IsZero(h[l].grad) && Valid(h[a].value) && Nonzero(h[a].value)
    ensures Valid(h[a].value) && Valid(h[a].grad) && Valid(h[n].grad) && SameShape(h[n].grad, h[a].value)
    ensures forall i, j :: 0 <= i < h[a].value.rows && 0 <= j < h[a].value.cols ==>
              Backward(h, num, n)[a].grad.data[i][j] == h[a].grad.data[i][j] - h[n].grad.data[i][j] / h[a].value.data[i][j]
  {
    var r := Backward(h, num, n);
    assert Shaped(h, n) && Shaped(h, l) && Shaped(h, a);
    BackwardKeeps(h, num, n, n);
    NoOtherParent(h, n, l);
    SoleUnaryParent(h, num, n, n, l);
    ChainParents(h, n, l, a);
    SoleUnaryParent(h, num, n, l, a);
    assert r[n] == h[n] && r[l].op == Log && r[l].children == [a] && r[a].value == h[a].value;
    assert Contrib(r, num, n, 0) == MatNeg(h[n].grad);
    assert Contrib(r, num, l, 0) == MatDiv(r[l].grad, h[a].value);
    NegThenDivide(h[a].grad, h[l].grad, h[n].grad, h[a].value, r[l].grad, r[a].grad);
  }

  /** The arithmetic of the two hops: a zero accumulator gains `-dy`, and the
      prediction's gradient gains that divided by the prediction. */
  lemma {:induction false} NegThenDivide(ga: Mat, zl: Mat, dy: Mat, x: Mat, rl: Mat, ra: Mat)
    requires Valid(ga) && Valid(zl) && Valid(dy) && Valid(x)
    requires SameShape(ga, x) && SameShape(zl, x) && SameShape(dy, x) && IsZero(zl) && Nonzero(x)
    requires rl == MatAdd(zl, MatNeg(dy)) && ra == MatAdd(ga, MatDiv(rl, x))
    ensures forall i, j :: 0 <= i < x.rows && 0 <= j < x.cols ==>
              ra.data[i][j] == ga.data[i][j] - dy.data[i][j] / x.data[i][j]
  {
  }

  // ---------------------------------------------------------------- mean squared error

  /** The one-hot target: 1 at the target index, 0 elsewhere (and 0
      everywhere when the target index is past the end). */
  function TargetAt(i: nat, target: nat): (t: real)
    ensures t == 1.0 || t == 0.0
    ensures t == 1.0 <==> i == target
  {
    if i == target then 1.0 else 0.0
  }

  /** The sum of `pow(x_k - t_k, 2)` over the entries from `i` on, as the
      graph computes it. */
  function SquaredErrors(num: Numerics, xs: seq<real>, target: nat, i: nat): real
    decreases |xs| - i
  {
    if i >= |xs| then 0.0
    else num.pow(xs[i] - TargetAt(i, target), 2.0) + SquaredErrors(num, xs, target, i + 1)
  }

  /** The reference: the sum of the squared differences from `i` on. */
  function SumSquares(xs: seq<real>, target: nat, i: nat): real
    decreases |xs| - i
  {
    if i >= |xs| then 0.0
    else (xs[i] - TargetAt(i, target)) * (xs[i] - TargetAt(i, target)) + SumSquares(xs, target, i + 1)
  }

  /** Node `i`'s gradient is still the zero it was created with. */
  predicate FreshGrad(h: Arena, i: nat) {
    i < |h| && Valid(h[i].grad) && IsZero(h[i].grad)
  }

  /** A fresh scalar leaf holding `x`. */
  function LeafNode(g: Arena, x: real): (r: Arena)
    requires WellFormed(g)
    ensures WellFormed(r) && Extends(g, r) && |r| == |g| + 1 && LeafOf(r, |g|, x)
  {
    var r := New(g, Fill(1, 1, x));
    assert Extends(g, r) by {
      forall i | 0 <= i < |g| ensures r[i] == g[i] { assert r[..|g|][i] == r[i]; }
    }
    r
  }

  /** A scalar `sub` node. */
  function SubNode(g: Arena, a: nat, b: nat): (r: Arena)
    requires WellFormed(g) && ScalarAt(g, a) && ScalarAt(g, b)
    ensures WellFormed(r) && Extends(g, r) && |r| == |g| + 1
    ensures r[|g|].op == Sub && r[|g|].children == [a, b] && FreshGrad(r, |g|)
    ensures ScalarAt(r, |g|) && Val(r, |g|) == Val(g, a) - Val(g, b)
  {
    var r := SubOp(g, a, b);
    AppendedExtends(g, r, [a, b], Sub);
    r
  }

  /** A scalar `add` node. */
  function AddNode(g: Arena, a: nat, b: nat): (r: Arena)
    requires WellFormed(g) && ScalarAt(g, a) && ScalarAt(g, b)
    ensures WellFormed(r) && Extends(g, r) && |r| == |g| + 1
    ensures r[|g|].op == Add && r[|g|].children == [a, b] && FreshGrad(r, |g|)
    ensures ScalarAt(r, |g|) && Val(r, |g|) == Val(g, a) + Val(g, b)
  {
    var r := AddOp(g, a, b);
    AppendedExtends(g, r, [a, b], Add);
    r
  }

  /** `pow` on a scalar: the exponent leaf, then the `pow` node. */
  function PowNode(g: Arena, num: Numerics, a: nat, p: real): (r: Arena)
    requires WellFormed(g) && ScalarAt(g, a)
    ensures WellFormed(r) && Extends(g, r) && |r| == |g| + 2 && LeafOf(r, |g|, p)
    ensures r[|g| + 1].op == Pow && r[|g| + 1].children == [a, |g|] && FreshGrad(r, |g| + 1)
    ensures ScalarAt(r, |g| + 1) && Val(r, |g| + 1) == num.pow(Val(g, a), p)
  {
    var r := PowOp(g, num, a, p);
    assert Extends(g, r) by {
      forall i | 0 <= i < |g| ensures r[i] == g[i] { assert r[..|g|][i] == r[i]; }
    }
    assert r[..|g| + 1][|g|] == r[|g|];
    r
  }

  /** The squared error of one prediction: a fresh target leaf, `p - t`,
      and its square (an exponent leaf, then the `pow` node). */
  function SquaredDiff(g: Arena, num: Numerics, p: nat, t: real): (r: Arena)
    requires WellFormed(g) && ScalarAt(g, p)
    ensures WellFormed(r) && Extends(g, r) && |r| == |g| + 4
    ensures ScalarAt(r, |g| + 3) && Val(r, |g| + 3) == num.pow(Val(g, p) - t, 2.0)
    ensures LeafOf(r, |g|, t) && LeafOf(r, |g| + 2, 2.0)
    ensures NodeIs(r, |g| + 1, Sub, [p, |g|]) && FreshGrad(r, |g| + 1)
    ensures ScalarAt(r, |g| + 1) && Val(r, |g| + 1) == Val(g, p) - t
    ensures NodeIs(r, |g| + 3, Pow, [|g| + 1, |g| + 2]) && FreshGrad(r, |g| + 3)
  {
    var g1 := LeafNode(g, t);
    var g2 := SubNode(g1, p, |g|);
    var g3 := PowNode(g2, num, |g| + 1, 2.0);
    DiffJoin(g, g1, g2, g3, num, p, t);
    g3
  }

  /** Chains the three steps of a squared error. */
  lemma {:induction false} DiffJoin(g: Arena, g1: Arena, g2: Arena, g3: Arena, num: Numerics, p: nat, t: real)
    requires ScalarAt(g, p)
    requires Extends(g, g1) && |g1| == |g| + 1 && LeafOf(g1, |g|, t)
    requires Extends(g1, g2) && |g2| == |g1| + 1
    requires g2[|g1|].op == Sub && g2[|g1|].children == [p, |g|] && FreshGrad(g2, |g1|)
    requires ScalarAt(g2, |g1|) && Val(g2, |g1|) == Val(g1, p) - Val(g1, |g|)
    requires Extends(g2, g3) && |g3| == |g2| + 2 && LeafOf(g3, |g2|, 2.0)
    requires g3[|g2| + 1].op == Pow && g3[|g2| + 1].children == [|g| + 1, |g2|] && FreshGrad(g3, |g2| + 1)
    requires ScalarAt(g3, |g2| + 1) && Val(g3, |g2| + 1) == num.pow(Val(g2, |g| + 1), 2.0)
    ensures Extends(g, g3) && |g3| == |g| + 4
    ensures ScalarAt(g3, |g| + 3) && Val(g3, |g| + 3) == num.pow(Val(g, p) - t, 2.0)
    ensures LeafOf(g3, |g|, t) && LeafOf(g3, |g| + 2, 2.0)
    ensures NodeIs(g3, |g| + 1, Sub, [p, |g|]) && FreshGrad(g3, |g| + 1)
    ensures ScalarAt(g3, |g| + 1) && Val(g3, |g| + 1) == Val(g, p) - t
    ensures NodeIs(g3, |g| + 3, Pow, [|g| + 1, |g| + 2]) && FreshGrad(g3, |g| + 3)
  {
    ExtendsTrans(g, g1, g2);
    ExtendsTrans(g, g2, g3);
    ExtendsTrans(g1, g2, g3);
    assert g3[|g|] == g1[|g|] && g3[|g| + 1] == g2[|g| + 1] && g1[p] == g[p];
  }

  /** One loop turn of `MSE::forward`: the squared error of the prediction
      added to the running sum, which is the last node pushed so far. */
  function MseTerm(g: Arena, num: Numerics, p: nat, t: real, total: nat): (r: (Arena, nat))
    requires WellFormed(g) && ScalarAt(g, p) && ScalarAt(g, total) && total + 1 == |g|
    ensures WellFormed(r.0) && Extends(g, r.0) && |r.0| == |g| + 5 && r.1 == |g| + 4
    ensures ScalarAt(r.0, r.1) && Val(r.0, r.1) == Val(g, total) + num.pow(Val(g, p) - t, 2.0)
    ensures MseTermAt(r.0, total, p, t)
  {
    AddSquare(g, SquaredDiff(g, num, p, t), num, p, t, total)
  }

  /** The sum node of one loop turn, over the running sum and the square
      `g3` holds in its last node. */
  function AddSquare(g: Arena, g3: Arena, num: Numerics, p: nat, t: real, total: nat): (r: (Arena, nat))
    requires ScalarAt(g, p) && ScalarAt(g, total) && total + 1 == |g|
    requires WellFormed(g3) && Extends(g, g3) && |g3| == |g| + 4
    requires ScalarAt(g3, |g| + 3) && Val(g3, |g| + 3) == num.pow(Val(g, p) - t, 2.0)
    requires LeafOf(g3, |g|, t) && LeafOf(g3, |g| + 2, 2.0)
    requires NodeIs(g3, |g| + 1, Sub, [p, |g|]) && FreshGrad(g3, |g| + 1)
    requires ScalarAt(g3, |g| + 1) && Val(g3, |g| + 1) == Val(g, p) - t
    requires NodeIs(g3, |g| + 3, Pow, [|g| + 1, |g| + 2]) && FreshGrad(g3, |g| + 3)
    ensures WellFormed(r.0) && Extends(g, r.0) && |r.0| == |g| + 5 && r.1 == |g| + 4
    ensures ScalarAt(r.0, r.1) && Val(r.0, r.1) == Val(g, total) + num.pow(Val(g, p) - t, 2.0)
    ensures MseTermAt(r.0, total, p, t)
  {
    assert g3[total] == g[total];
    var g4 := AddNode(g3, total, |g| + 3);
    SumJoin(g, g3, g4, total, |g| + 3);
    TermJoin(g, g3, g4, p, t, total);
    (g4, |g| + 4)
  }

  /** The squared error's four nodes and the sum node over them make one
      loop turn when the running sum is the node just before them. */
  lemma {:induction false} TermJoin(g: Arena, g3: Arena, g4: Arena, p: nat, t: real, total: nat)
    requires ScalarAt(g, p) && |g3| == |g| + 4 && Extends(g, g3) && Extends(g3, g4) && |g4| == |g3| + 1
    requires LeafOf(g3, |g|, t) && LeafOf(g3, |g| + 2, 2.0)
    requires NodeIs(g3, |g| + 1, Sub, [p, |g|]) && FreshGrad(g3, |g| + 1)
    requires ScalarAt(g3, |g| + 1) && Val(g3, |g| + 1) == Val(g, p) - t
    requires NodeIs(g3, |g| + 3, Pow, [|g| + 1, |g| + 2]) && FreshGrad(g3, |g| + 3) && ScalarAt(g3, |g| + 3)
    requires g4[|g3|].op == Add && g4[|g3|].children == [total, |g| + 3] && FreshGrad(g4, |g3|) && ScalarAt(g4, |g3|)
    requires total + 1 == |g|
    ensures MseTermAt(g4, total, p, t)
  {
    assert g4[p] == g3[p] == g[p];
    assert g4[|g|] == g3[|g|] && g4[|g| + 1] == g3[|g| + 1] && g4[|g| + 2] == g3[|g| + 2] && g4[|g| + 3] == g3[|g| + 3];
  }

  /** The five nodes one loop turn of `MSE::forward` appends after the
      running sum `c`: the target leaf `t`, the difference `p - t`, the
      exponent leaf 2, the square, and the new running sum over `c` and the
      square; all five are scalars, and the three operation nodes start
      with zero gradients. */
  predicate MseTermAt(h: Arena, c: nat, p: nat, t: real) {
    && ScalarAt(h, p) && LeafOf(h, c + 1, t) && LeafOf(h, c + 3, 2.0)
    && NodeIs(h, c + 2, Sub, [p, c + 1]) && ScalarAt(h, c + 2) && Val(h, c + 2) == Val(h, p) - t
    && NodeIs(h, c + 4, Pow, [c + 2, c + 3]) && NodeIs(h, c + 5, Add, [c, c + 4])
    && ScalarAt(h, c + 4) && ScalarAt(h, c + 5)
    && FreshGrad(h, c + 2) && FreshGrad(h, c + 4) && FreshGrad(h, c + 5)
  }

  /** Chains a new summand with the sum node added over it. */
  lemma {:induction false} SumJoin(g: Arena, g3: Arena, g4: Arena, total: nat, q: nat)
    requires ScalarAt(g, total) && Extends(g, g3) && Extends(g3, g4) && |g4| == |g3| + 1
    requires ScalarAt(g3, q) && ScalarAt(g4, |g3|) && Val(g4, |g3|) == Val(g3, total) + Val(g3, q)
    ensures Extends(g, g4) && Val(g4, |g3|) == Val(g, total) + Val(g3, q)
  {
    ExtendsTrans(g, g3, g4);
  }

  /** The loop of `MSE::forward` from index `i` on: the running sum gains
      the squared error of every remaining prediction. */
  function MseTerms(g: Arena, num: Numerics, pred: seq<nat>, target: nat, i: nat, total: nat): (r: (Arena, nat))
    requires WellFormed(g) && AllScalar(g, pred) && ScalarAt(g, total) && total + 1 == |g| && i <= |pred|
    ensures WellFormed(r.0) && Extends(g, r.0) && |r.0| == |g| + 5 * (|pred| - i)
    ensures ScalarAt(r.0, r.1)
    ensures Val(r.0, r.1) == Val(g, total) + SquaredErrors(num, Vals(g, pred), target, i)
    ensures r.1 == total + 5 * (|pred| - i) && forall k :: i <= k < |pred| ==> Turn(r.0, total, i, pred, target, k)
    decreases |pred| - i, 1
  {
    if i == |pred| then (g, total) else MseTurn(g, num, pred, target, i, total)
  }

  /** Turn `i` of the loop of `MSE::forward`, then the turns after it. */
  function MseTurn(g: Arena, num: Numerics, pred: seq<nat>, target: nat, i: nat, total: nat): (r: (Arena, nat))
    requires WellFormed(g) && AllScalar(g, pred) && ScalarAt(g, total) && total + 1 == |g| && i < |pred|
    ensures WellFormed(r.0) && Extends(g, r.0) && |r.0| == |g| + 5 * (|pred| - i)
    ensures ScalarAt(r.0, r.1)
    ensures Val(r.0, r.1) == Val(g, total) + SquaredErrors(num, Vals(g, pred), target, i)
    ensures r.1 == total + 5 * (|pred| - i) && forall k :: i <= k < |pred| ==> Turn(r.0, total, i, pred, target, k)
    decreases |pred| - i, 0
  {
    var one := MseTerm(g, num, pred[i], TargetAt(i, target), total);
    ExtendsScalars(g, one.0, pred);
    var r := MseTerms(one.0, num, pred, target, i + 1, one.1);
    TermsJoin(g, one.0, one.1, r.0, r.1, num, pred, target, i, i + 1, total);
    TurnsCons(|g|, one.0, r.0, total, one.1, pred, target, i, i + 1);
    r
  }

  /** One loop turn followed by the rest of the loop is the loop from the
      turn's index on. */
  lemma {:induction false} TermsJoin(g: Arena, g1: Arena, t1: nat, h: Arena, y: nat, num: Numerics,
                                     pred: seq<nat>, target: nat, i: nat, i1: nat, total: nat)
    requires AllScalar(g, pred) && ScalarAt(g, total) && i < |pred| && i1 == i + 1
    requires Extends(g, g1) && |g1| == |g| + 5 && t1 == |g| + 4 && ScalarAt(g1, t1) && AllScalar(g1, pred)
    requires Val(g1, t1) == Val(g, total) + num.pow(Val(g, pred[i]) - TargetAt(i, target), 2.0)
    requires Vals(g1, pred) == Vals(g, pred)
    requires Extends(g1, h) && |h| == |g1| + 5 * (|pred| - i1) && ScalarAt(h, y)
    requires Val(h, y) == Val(g1, t1) + SquaredErrors(num, Vals(g1, pred), target, i1)
    ensures Extends(g, h) && |h| == |g| + 5 * (|pred| - i)
    ensures Val(h, y) == Val(g, total) + SquaredErrors(num, Vals(g, pred), target, i)
  {
    ExtendsTrans(g, g1, h);
    var xs := Vals(g, pred);
    assert xs[i] == Val(g, pred[i]);
    SquaredErrorsStep(num, xs, target, i, Val(g, total), Val(g1, t1), Val(h, y));
  }

  /** One loop turn's nodes stay put when the arena grows. */
  lemma {:induction false} MseTermAtExtends(g: Arena, h: Arena, c: nat, p: nat, t: real)
    requires Extends(g, h) && MseTermAt(g, c, p, t)
    ensures MseTermAt(h, c, p, t)
  {
    assert h[p] == g[p] && h[c + 1] == g[c + 1] && h[c + 2] == g[c + 2] && h[c + 3] == g[c + 3];
    assert h[c + 4] == g[c + 4] && h[c + 5] == g[c + 5];
  }

  /** Turn `k` of the loop, in a run that started at index `i` after the
      running sum `c`: its five nodes follow `c + 5 * (k - i)`. */
  predicate Turn(h: Arena, c: nat, i: nat, pred: seq<nat>, target: nat, k: nat)
    requires i <= k < |pred|
  {
    MseTermAt(h, c + 5 * (k - i), pred[k], TargetAt(k, target))
  }

  /** The turns stay put when the arena grows. */
  lemma {:induction false} TurnsExtend(g: Arena, h: Arena, c: nat, i: nat, pred: seq<nat>, target: nat)
    requires Extends(g, h) && forall k :: i <= k < |pred| ==> Turn(g, c, i, pred, target, k)
    ensures forall k :: i <= k < |pred| ==> Turn(h, c, i, pred, target, k)
  {
    forall k | i <= k < |pred| ensures Turn(h, c, i, pred, target, k) {
      assert Turn(g, c, i, pred, target, k);
      MseTermAtExtends(g, h, c + 5 * (k - i), pred[k], TargetAt(k, target));
    }
  }

  /** A turn laid after the last node `c` of an arena of `len` nodes, in
      front of the turns after it. */
  lemma {:induction false} TurnsCons(len: nat, g1: Arena, h: Arena, c: nat, t1: nat, pred: seq<nat>, target: nat, i: nat, i1: nat)
    requires i < |pred| && i1 == i + 1 && Extends(g1, h) && t1 == len + 4 && |g1| == len + 5
    requires c + 1 == len && MseTermAt(g1, c, pred[i], TargetAt(i, target))
    requires forall k :: i1 <= k < |pred| ==> Turn(h, t1, i1, pred, target, k)
    ensures t1 == c + 5 && forall k :: i <= k < |pred| ==> Turn(h, c, i, pred, target, k)
  {
    forall k | i <= k < |pred| ensures Turn(h, c, i, pred, target, k) {
      if k == i {
        MseTermAtExtends(g1, h, c, pred[i], TargetAt(i, target));
      } else {
        assert Turn(h, t1, i1, pred, target, k);
        assert t1 + 5 * (k - i1) == c + 5 * (k - i);
      }
    }
  }

  /** A running sum that gains the `i`-th squared error and then the rest
      has gained them all from `i` on. */
  lemma {:induction false} SquaredErrorsStep(num: Numerics, xs: seq<real>, target: nat, i: nat, a: real, b: real, c: real)
    requires i < |xs| && b == a + num.pow(xs[i] - TargetAt(i, target), 2.0)
    requires c == b + SquaredErrors(num, xs, target, i + 1)
    ensures c == a + SquaredErrors(num, xs, target, i)
  {
  }

  /** `MSE::forward`: a zero leaf as the running sum, one term per
      prediction, then division by a leaf holding the number of predictions.
      With no predictions the division is 0/0, which the model excludes. */
  function Mse(g: Arena, num: Numerics, pred: seq<nat>, target: nat): (r: (Arena, nat))
    requires WellFormed(g) && AllScalar(g, pred) && |pred| > 0
    ensures WellFormed(r.0) && Extends(g, r.0) && ScalarAt(r.0, r.1)
    ensures Val(r.0, r.1) == SquaredErrors(num, Vals(g, pred), target, 0) / (|pred| as real)
    ensures MseGraph(r.0, |g|, pred, target) && r.1 == |g| + 5 * |pred| + 2
  {
    var g0 := LeafNode(g, 0.0);
    ExtendsScalars(g, g0, pred);
    var sum := MseTerms(g0, num, pred, target, 0, |g|);
    var g1 := LeafNode(sum.0, |pred| as real);
    var q := DivNode(g1, sum.1, |sum.0|);
    MseGraphJoin(g, g0, sum.0, sum.1, g1, q.0, q.1, pred, target);
    ExtendsTrans(g, g0, sum.0);
    ExtendsTrans(g, sum.0, g1);
    ExtendsTrans(g, g1, q.0);
    q
  }

  /** The graph `MSE::forward` appends after the caller's `b` nodes: the
      zero leaf at `b` as the first running sum, five nodes per prediction
      (`MseTermAt`), the leaf holding the number of predictions, and the
      loss: a `div` node over the last running sum and that leaf. */
  predicate MseGraph(h: Arena, b: nat, pred: seq<nat>, target: nat) {
    && |h| == b + 5 * |pred| + 3 && LeafOf(h, b, 0.0)
    && (forall k :: 0 <= k < |pred| ==> pred[k] < b) && (forall k :: 0 <= k < |pred| ==> Turn(h, b, 0, pred, target, k))
    && LeafOf(h, b + 5 * |pred| + 1, |pred| as real)
    && NodeIs(h, b + 5 * |pred| + 2, Div, [b + 5 * |pred|, b + 5 * |pred| + 1])
  }

  /** The pieces `MSE::forward` builds, in order, make up its graph: the
      zero leaf, the loop's turns, the count leaf and the `div` node. */
  lemma {:induction false} MseGraphJoin(g: Arena, g0: Arena, s: Arena, s1: nat, g1: Arena, h: Arena, y: nat, pred: seq<nat>, target: nat)
    requires AllScalar(g, pred)
    requires Extends(g, g0) && |g0| == |g| + 1 && LeafOf(g0, |g|, 0.0)
    requires Extends(g0, s) && |s| == |g0| + 5 * (|pred| - 0)
    requires s1 == |g| + 5 * (|pred| - 0) && forall k :: 0 <= k < |pred| ==> Turn(s, |g|, 0, pred, target, k)
    requires Extends(s, g1) && |g1| == |s| + 1 && LeafOf(g1, |s|, |pred| as real)
    requires Extends(g1, h) && |h| == |g1| + 1 && y == |g1| && NodeIs(h, |g1|, Div, [s1, |s|])
    ensures MseGraph(h, |g|, pred, target) && y == |g| + 5 * |pred| + 2
  {
    ExtendsTrans(s, g1, h);
    ExtendsTrans(g0, s, h);
    assert h[|g|] == g0[|g|] && h[|s|] == g1[|s|];
    TurnsExtend(s, h, |g|, 0, pred, target);
    forall k | 0 <= k < |pred| ensures pred[k] < |g| {
      assert ScalarAt(g, pred[k]);
    }
  }

  /** With `pow(x, 2)` the square, the graph's sum is the sum of squares. */
  lemma {:induction false} SquaredErrorsAreSquares(num: Numerics, xs: seq<real>, target: nat, i: nat)
    requires forall x :: num.pow(x, 2.0) == x * x
    ensures SquaredErrors(num, xs, target, i) == SumSquares(xs, target, i)
    decreases |xs| - i
  {
    if i < |xs| {
      SquaredErrorsAreSquares(num, xs, target, i + 1);
    }
  }

  /** The sum of squares is never negative, and it is zero exactly when
      every prediction from `i` on equals its one-hot target. */
  lemma {:induction false} SumSquaresZero(xs: seq<real>, target: nat, i: nat)
    ensures SumSquares(xs, target, i) >= 0.0
    ensures SumSquares(xs, target, i) == 0.0 <==> forall k :: i <= k < |xs| ==> xs[k] == TargetAt(k, target)
    decreases |xs| - i
  {
    if i < |xs| {
      SumSquaresZero(xs, target, i + 1);
      var d := xs[i] - TargetAt(i, target);
      SquareOf(d, d * d);
    }
  }

  /** A square is never negative, and zero only at zero. */
  lemma {:induction false} SquareOf(d: real, s: real)
    requires s == d * d
    ensures s >= 0.0 && (s == 0.0 <==> d == 0.0)
  {
    if d > 0.0 {
      calc { s; == d * d; > 0.0; }
    } else if d < 0.0 {
      calc { s; == d * d; == (-d) * (-d); > 0.0; }
    }
  }

  /** Dividing by a positive count keeps the sign and the zeros. */
  lemma {:induction false} Mean(s: real, n: real)
    requires s >= 0.0 && n > 0.0
    ensures s / n >= 0.0 && (s / n == 0.0 <==> s == 0.0)
  {
    assert s / n * n == s;
  }

  /** `MSE::forward` is the mean of the squared differences from the
      one-hot target: never negative, and zero exactly on a perfect
      prediction. */
  lemma {:induction false} MseIsMean(g: Arena, num: Numerics, pred: seq<nat>, target: nat)
    requires WellFormed(g) && AllScalar(g, pred) && |pred| > 0
    requires forall x :: num.pow(x, 2.0) == x * x
    ensures var r := Mse(g, num, pred, target);
      Val(r.0, r.1) == SumSquares(Vals(g, pred), target, 0) / (|pred| as real)
      && Val(r.0, r.1) >= 0.0
      && (Val(r.0, r.1) == 0.0 <==> forall k :: 0 <= k < |pred| ==> Val(g, pred[k]) == TargetAt(k, target))
  {
    var r := Mse(g, num, pred, target);
    MseMean(g, num, pred, target, Val(r.0, r.1));
  }

  /** The mean of the graph's squared errors is the mean of the squares. */
  lemma {:induction false} MseMean(g: Arena, num: Numerics, pred: seq<nat>, target: nat, v: real)
    requires AllScalar(g, pred) && |pred| > 0
    requires forall x :: num.pow(x, 2.0) == x * x
    requires v == SquaredErrors(num, Vals(g, pred), target, 0) / (|pred| as real)
    ensures v == SumSquares(Vals(g, pred), target, 0) / (|pred| as real) && v >= 0.0
    ensures v == 0.0 <==> forall k :: 0 <= k < |pred| ==> Val(g, pred[k]) == TargetAt(k, target)
  {
    var xs := Vals(g, pred);
    SquaredErrorsAreSquares(num, xs, target, 0);
    SumSquaresZero(xs, target, 0);
    PerfectVals(g, pred, target);
    MeanOfSquares(v, SumSquares(xs, target, 0), SquaredErrors(num, xs, target, 0), |pred| as real,
      forall k :: 0 <= k < |pred| ==> Val(g, pred[k]) == TargetAt(k, target));
  }

  /** A perfect prediction, read off the arena or off its values. */
  lemma {:induction false} PerfectVals(g: Arena, pred: seq<nat>, target: nat)
    requires AllScalar(g, pred)
    ensures (forall k :: 0 <= k < |pred| ==> Val(g, pred[k]) == TargetAt(k, target))
        <==> (forall k :: 0 <= k < |Vals(g, pred)| ==> Vals(g, pred)[k] == TargetAt(k, target))
  {
  }

  /** The mean of a sum of squares that vanishes exactly on `perfect`. */
  lemma {:induction false} MeanOfSquares(v: real, sq: real, se: real, n: real, perfect: bool)
    requires n > 0.0 && v == se / n && se == sq && sq >= 0.0 && (sq == 0.0 <==> perfect)
    ensures v == sq / n && v >= 0.0 && (v == 0.0 <==> perfect)
  {
    Mean(sq, n);
  }

  /** Two scalar predictions `a` and `b` against target 1: the loss is
      `(a^2 + (b - 1)^2) / 2`. */
  lemma {:induction false} MsePair(g: Arena, num: Numerics, a: real, b: real)
    requires WellFormed(g) && LeafOf(g, 0, a) && LeafOf(g, 1, b)
    requires forall x :: num.pow(x, 2.0) == x * x
    ensures AllScalar(g, [0, 1])
    ensures var r := Mse(g, num, [0, 1], 1); Val(r.0, r.1) == (a * a + (b - 1.0) * (b - 1.0)) / 2.0
  {
    PairLeaves(g, a, b);
    MseIsMean(g, num, [0, 1], 1);
    PairSquares(Vals(g, [0, 1]), a, b);
    var r := Mse(g, num, [0, 1], 1);
    Halve(Val(r.0, r.1), SumSquares(Vals(g, [0, 1]), 1, 0), a * a + (b - 1.0) * (b - 1.0), |[0, 1]| as real);
  }

  /** Two scalar leaves at the front of the arena. */
  lemma {:induction false} PairLeaves(g: Arena, a: real, b: real)
    requires LeafOf(g, 0, a) && LeafOf(g, 1, b)
    ensures AllScalar(g, [0, 1]) && Vals(g, [0, 1]) == [a, b]
  {
  }

  /** The sum of squares of a pair against target 1. */
  lemma {:induction false} PairSquares(xs: seq<real>, a: real, b: real)
    requires xs == [a, b]
    ensures SumSquares(xs, 1, 0) == a * a + (b - 1.0) * (b - 1.0)
  {
    assert SumSquares(xs, 1, 2) == 0.0;
    assert SumSquares(xs, 1, 1) == (b - 1.0) * (b - 1.0);
  }

  /** Substitution under a division by two. */
  lemma {:induction false} Halve(x: real, s: real, e: real, n: real)
    requires n == 2.0 && x == s / n && s == e
    ensures x == e / 2.0
  {
  }

  /** The loss test's numbers: predictions 0.1 and 0.9 against target 1
      give a mean squared error of 0.01. */
  lemma {:induction false} MseExample(num: Numerics)
    requires forall x :: num.pow(x, 2.0) == x * x
    ensures var g := Leaves([], [0.1, 0.9]);
      WellFormed(g) && AllScalar(g, [0, 1]) &&
      var r := Mse(g, num, [0, 1], 1); Val(r.0, r.1) == 0.01
  {
    var g := Leaves([], [0.1, 0.9]);
    assert WellFormed(g) && LeafOf(g, 0, 0.1) && LeafOf(g, 1, 0.9);
    MsePair(g, num, 0.1, 0.9);
  }
}
