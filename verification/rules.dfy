/** The backward rule of each operation, read off a graph of one operation
    over leaves, as the engine's unit tests build it: what each operand's
    gradient gains from one pass, and what a second pass adds again. */
module Rules {
  import opened Matrix
  import opened Autograd
  import opened Topo
  import opened BackwardPass
  import opened Gradients

  // ---------------------------------------------------------------- one operation over leaves

  /** Every child of `root` is a leaf. */
  predicate OverLeaves(g: Arena, root: nat)
    requires root < |g|
  {
    forall j :: 0 <= j < |g[root].children| ==> g[root].children[j] < |g| && g[g[root].children[j]].children == []
  }

  /** Below a node over leaves, everything reachable through its children
      from position `k` on is a leaf. */
  lemma {:induction false} LeafKids(g: Arena, n: nat, k: nat)
    requires Acyclic(g) && n < |g| && k <= |g[n].children| && OverLeaves(g, n)
    ensures forall y :: y in ReachKids(g, n, k) ==> y < |g| && g[y].children == []
    decreases |g[n].children| - k
  {
    if k < |g[n].children| {
      var c := g[n].children[k];
      assert ReachKids(g, c, 0) == {};
      assert Reach(g, c) == {c};
      LeafKids(g, n, k + 1);
    }
  }

  /** In a graph of one operation over leaves, `backward` from the operation
      adds to each node exactly the operation's contributions to it, computed
      from the graph before the pass. */
  lemma OneOpGrads(g: Arena, num: Numerics, root: nat, x: nat)
    requires WellFormed(g) && root < |g| && Differentiable(g, root) && OverLeaves(g, root) && x < |g|
    ensures Shaped(g, x) && DefinedAt(g, root)
    ensures Backward(g, num, root)[x].grad == Gather(g[x].grad, g, num, root, 0, x)
  {
    OnlyRootParent(g, root, x);
    SoleParent(g, num, root, root, x);
    var r := Backward(g, num, root);
    BackwardKeeps(g, num, root, root);
    FrameSymmetric(g, r);
    GatherFrame(g[x].grad, r, g, num, root, 0, x);
  }

  /** Over leaves, the operation is the only node reachable from it that has
      children at all. */
  lemma OnlyRootParent(g: Arena, root: nat, x: nat)
    requires Acyclic(g) && root < |g| && OverLeaves(g, root)
    ensures forall y :: y in Reach(g, root) && y != root && y < |g| ==> x !in g[y].children
  {
    LeafKids(g, root, 0);
  }

  lemma FrameSymmetric(g: Arena, h: Arena)
    requires SameFrame(g, h)
    ensures SameFrame(h, g)
  {
  }

  /** A binary operation over two distinct leaves: each operand gains the
      operation's contribution for its position, once. */
  lemma BinaryGrads(g: Arena, num: Numerics, root: nat, a: nat, b: nat)
    requires WellFormed(g) && root < |g| && Differentiable(g, root) && OverLeaves(g, root)
    requires a < |g| && b < |g| && g[root].children == [a, b] && a != b && Propagates(g[root].op, 0) && Propagates(g[root].op, 1)
    ensures Shaped(g, a) && Shaped(g, b) && DefinedAt(g, root)
    ensures Backward(g, num, root)[a].grad == MatAdd(g[a].grad, Contrib(g, num, root, 0))
    ensures Backward(g, num, root)[b].grad == MatAdd(g[b].grad, Contrib(g, num, root, 1))
  {
    OneOpGrads(g, num, root, a);
    OneOpGrads(g, num, root, b);
    BinaryGather(g, num, root, a, b, g[a].grad, a);
    BinaryGather(g, num, root, a, b, g[b].grad, b);
  }

  /** What a binary node passes to either of its two distinct operands:
      its contribution at that operand's position, added once. */
  lemma BinaryGather(g: Arena, num: Numerics, root: nat, a: nat, b: nat, acc: Mat, x: nat)
    requires WellFormed(g) && root < |g| && DefinedAt(g, root) && a < |g| && b < |g|
    requires g[root].children == [a, b] && a != b && Propagates(g[root].op, 0) && Propagates(g[root].op, 1)
    requires (x == a || x == b) && Valid(acc) && SameShape(acc, g[x].value)
    ensures Gather(acc, g, num, root, 0, x) == MatAdd(acc, Contrib(g, num, root, if x == a then 0 else 1))
  {
    if x == a {
      var ca := MatAdd(acc, Contrib(g, num, root, 0));
      assert Gather(ca, g, num, root, 1, a) == ca;
    } else {
      var cb := MatAdd(acc, Contrib(g, num, root, 1));
      assert Gather(acc, g, num, root, 1, b) == cb by {
        assert Gather(cb, g, num, root, 2, b) == cb;
      }
    }
  }

  /** A unary operation over a leaf: the operand gains the contribution once. */
  lemma UnaryGrads(g: Arena, num: Numerics, root: nat, a: nat)
    requires WellFormed(g) && root < |g| && Differentiable(g, root) && OverLeaves(g, root)
    requires a < |g| && g[root].children == [a] && Propagates(g[root].op, 0)
    ensures Shaped(g, a) && DefinedAt(g, root)
    ensures Backward(g, num, root)[a].grad == MatAdd(g[a].grad, Contrib(g, num, root, 0))
  {
    OneOpGrads(g, num, root, a);
  }

  /** A graph over leaves is differentiable from its root when the root's
      own divisions are defined: leaves divide by nothing. */
  lemma LeavesDifferentiable(h: Arena, root: nat)
    requires WellFormed(h) && root < |h| && OverLeaves(h, root) && DefinedAt(h, root)
    ensures Differentiable(h, root)
  {
    LeafKids(h, root, 0);
    forall x | x in Reach(h, root) ensures x < |h| && DefinedAt(h, x) {
      if x != root {
        assert x in ReachKids(h, root, 0);
        assert Shaped(h, x);
      }
    }
  }

  /** The arena of a unit test: `op` appended to `g` over two leaves, its
      gradient seeded with `dy` by `set_grad`. */
  lemma SeedBinary(g: Arena, r: Arena, h: Arena, a: nat, b: nat, op: Op, dy: Mat)
    requires WellFormed(g) && a < |g| && b < |g| && g[a].children == [] && g[b].children == []
    requires WellFormed(r) && Appended(g, r, [a, b], op)
    requires Valid(dy) && SameShape(dy, r[|g|].value) && h == SetGrad(r, |g|, dy)
    ensures WellFormed(h) && |h| == |g| + 1 && OverLeaves(h, |g|) && h[a] == g[a] && h[b] == g[b]
    ensures h[|g|].children == [a, b] && h[|g|].op == op && h[|g|].grad == dy && h[|g|].value == r[|g|].value
  {
    assert r[a] == g[a] && r[b] == g[b];
  }

  /** The same for a one-operand operation. */
  lemma SeedUnary(g: Arena, r: Arena, h: Arena, a: nat, op: Op, dy: Mat)
    requires WellFormed(g) && a < |g| && g[a].children == []
    requires WellFormed(r) && Appended(g, r, [a], op)
    requires Valid(dy) && SameShape(dy, r[|g|].value) && h == SetGrad(r, |g|, dy)
    ensures WellFormed(h) && |h| == |g| + 1 && OverLeaves(h, |g|) && h[a] == g[a]
    ensures h[|g|].children == [a] && h[|g|].op == op && h[|g|].grad == dy && h[|g|].value == r[|g|].value
  {
    assert r[a] == g[a];
  }

  // ---------------------------------------------------------------- the rules

  /** `add`: both operands gain `dy`. */
  lemma AddRule(g: Arena, num: Numerics, a: nat, b: nat, dy: Mat)
    requires WellFormed(g) && a < |g| && b < |g| && a != b && g[a].children == [] && g[b].children == []
    requires SameShape(g[a].value, g[b].value) && Valid(dy) && SameShape(dy, g[a].value)
    ensures var h := SetGrad(AddOp(g, a, b), |g|, dy);
      && WellFormed(h) && Differentiable(h, |g|)
      && Valid(g[a].grad) && Valid(g[b].grad) && SameShape(g[a].grad, dy) && SameShape(g[b].grad, dy)
      && Backward(h, num, |g|)[a].grad == MatAdd(g[a].grad, dy)
      && Backward(h, num, |g|)[b].grad == MatAdd(g[b].grad, dy)
  {
    var r := AddOp(g, a, b);
    var h := SetGrad(r, |g|, dy);
    SeedBinary(g, r, h, a, b, Add, dy);
    LeavesDifferentiable(h, |g|);
    BinaryGrads(h, num, |g|, a, b);
    assert Contrib(h, num, |g|, 0) == dy && Contrib(h, num, |g|, 1) == dy;
  }

  /** `sub`: the first operand gains `dy`, the second loses it. */
  lemma SubRule(g: Arena, num: Numerics, a: nat, b: nat, dy: Mat)
    requires WellFormed(g) && a < |g| && b < |g| && a != b && g[a].children == [] && g[b].children == []
    requires SameShape(g[a].value, g[b].value) && Valid(dy) && SameShape(dy, g[a].value)
    ensures var h := SetGrad(SubOp(g, a, b), |g|, dy);
      && WellFormed(h) && Differentiable(h, |g|)
      && Valid(g[a].grad) && Valid(g[b].grad) && SameShape(g[a].grad, dy) && SameShape(g[b].grad, dy)
      && Backward(h, num, |g|)[a].grad == MatAdd(g[a].grad, dy)
      && Backward(h, num, |g|)[b].grad == MatSub(g[b].grad, dy)
  {
    var r := SubOp(g, a, b);
    var h := SetGrad(r, |g|, dy);
    SeedBinary(g, r, h, a, b, Sub, dy);
    LeavesDifferentiable(h, |g|);
    BinaryGrads(h, num, |g|, a, b);
    assert Contrib(h, num, |g|, 0) == dy && Contrib(h, num, |g|, 1) == MatNeg(dy);
    AddNegIsSub(g[b].grad, dy);
  }

  lemma AddNegIsSub(x: Mat, y: Mat)
    requires Valid(x) && Valid(y) && SameShape(x, y)
    ensures MatAdd(x, MatNeg(y)) == MatSub(x, y)
  {
    Ext(MatAdd(x, MatNeg(y)), MatSub(x, y));
  }

  /** `mul` (the matrix product): `a` gains `dy` times the transpose of
      `b`'s value, and `b` gains the transpose of `a`'s value times `dy`. */
  lemma MulRule(g: Arena, num: Numerics, a: nat, b: nat, dy: Mat)
    requires WellFormed(g) && a < |g| && b < |g| && a != b && g[a].children == [] && g[b].children == []
    requires g[a].value.cols == g[b].value.rows && Valid(dy)
    requires dy.rows == g[a].value.rows && dy.cols == g[b].value.cols
    ensures var h := SetGrad(MulOp(g, a, b), |g|, dy);
      && WellFormed(h) && Differentiable(h, |g|)
      && Valid(g[a].value) && Valid(g[b].value) && Valid(g[a].grad) && Valid(g[b].grad)
      && SameShape(g[a].grad, g[a].value) && SameShape(g[b].grad, g[b].value)
      && Backward(h, num, |g|)[a].grad == MatAdd(g[a].grad, MatMul(dy, Transpose(g[b].value)))
      && Backward(h, num, |g|)[b].grad == MatAdd(g[b].grad, MatMul(Transpose(g[a].value), dy))
  {
    var r := MulOp(g, a, b);
    var h := SetGrad(r, |g|, dy);
    SeedBinary(g, r, h, a, b, Mul, dy);
    LeavesDifferentiable(h, |g|);
    BinaryGrads(h, num, |g|, a, b);
  }

  /** `div`: `a` gains `dy / b` and `b` gains `-(a / b^2) * dy`, entry by
      entry. */
  lemma DivRule(g: Arena, num: Numerics, a: nat, b: nat, dy: Mat)
    requires WellFormed(g) && a < |g| && b < |g| && a != b && g[a].children == [] && g[b].children == []
    requires SameShape(g[a].value, g[b].value) && Valid(g[b].value) && Nonzero(g[b].value)
    requires Valid(dy) && SameShape(dy, g[a].value)
    ensures var h := SetGrad(DivOp(g, a, b), |g|, dy);
      && WellFormed(h) && Differentiable(h, |g|)
      && Valid(g[a].value) && Valid(g[a].grad) && Valid(g[b].grad)
      && SameShape(g[a].grad, dy) && SameShape(g[b].grad, dy)
      && GainsQuotient(g[a].grad, Backward(h, num, |g|)[a].grad, dy, g[b].value)
      && LosesQuotientSlope(g[b].grad, Backward(h, num, |g|)[b].grad, dy, g[a].value, g[b].value)
  {
    var r := DivOp(g, a, b);
    var h := SetGrad(r, |g|, dy);
    SeedBinary(g, r, h, a, b, Div, dy);
    assert DefinedAt(h, |g|);
    LeavesDifferentiable(h, |g|);
    BinaryGrads(h, num, |g|, a, b);
    DivContribs(h, num, |g|, a, b);
    var rb := Backward(h, num, |g|);
    DivEntries(g[a].grad, g[b].grad, g[a].value, g[b].value, dy, rb[a].grad, rb[b].grad);
  }

  /** The two contributions of a `Div` node. */
  lemma DivContribs(h: Arena, num: Numerics, root: nat, a: nat, b: nat)
    requires WellFormed(h) && root < |h| && h[root].op == Div && h[root].children == [a, b] && DefinedAt(h, root)
    ensures Shaped(h, root) && a < |h| && b < |h| && Valid(h[a].value) && Valid(h[b].value) && Nonzero(h[b].value)
    ensures Valid(h[root].grad) && SameShape(h[root].grad, h[b].value) && SameShape(h[a].value, h[b].value)
    ensures Nonzero(Hadamard(h[b].value, h[b].value))
    ensures Contrib(h, num, root, 0) == MatDiv(h[root].grad, h[b].value)
    ensures Contrib(h, num, root, 1) == Hadamard(MatNeg(MatDiv(h[a].value, Hadamard(h[b].value, h[b].value))), h[root].grad)
  {
    assert Shaped(h, root);
    NonzeroProduct(h[b].value, h[b].value);
  }

  /** `after` is `before` plus `dy / y`, entry by entry. */
  predicate GainsQuotient(before: Mat, after: Mat, dy: Mat, y: Mat) {
    && Valid(before) && Valid(after) && Valid(dy) && Valid(y)
    && SameShape(before, dy) && SameShape(after, dy) && SameShape(y, dy)
    && forall i, j :: 0 <= i < dy.rows && 0 <= j < dy.cols && y.data[i][j] != 0.0 ==>
         after.data[i][j] == before.data[i][j] + dy.data[i][j] / y.data[i][j]
  }

  /** `after` is `before` minus `x / y^2` times `dy`, entry by entry. */
  predicate LosesQuotientSlope(before: Mat, after: Mat, dy: Mat, x: Mat, y: Mat) {
    && Valid(before) && Valid(after) && Valid(dy) && Valid(x) && Valid(y)
    && SameShape(before, dy) && SameShape(after, dy) && SameShape(x, dy) && SameShape(y, dy)
    && forall i, j :: 0 <= i < dy.rows && 0 <= j < dy.cols && y.data[i][j] != 0.0 ==>
         after.data[i][j] == before.data[i][j] - x.data[i][j] / (y.data[i][j] * y.data[i][j]) * dy.data[i][j]
  }

  /** The entries of the two quotient-rule updates. */
  lemma DivEntries(ga: Mat, gb: Mat, x: Mat, y: Mat, dy: Mat, ra: Mat, rb: Mat)
    requires Valid(ga) && Valid(gb) && Valid(x) && Valid(y) && Valid(dy)
    requires SameShape(ga, dy) && SameShape(gb, dy) && SameShape(x, dy) && SameShape(y, dy) && Nonzero(y)
    requires Nonzero(Hadamard(y, y))
    requires ra == MatAdd(ga, MatDiv(dy, y)) && rb == MatAdd(gb, Hadamard(MatNeg(MatDiv(x, Hadamard(y, y))), dy))
    ensures GainsQuotient(ga, ra, dy, y) && LosesQuotientSlope(gb, rb, dy, x, y)
  {
  }

  /** `after` is `before` plus `dy` times the slope `s`, entry by entry. */
  predicate GainsTimes(before: Mat, after: Mat, dy: Mat, s: Mat) {
    && Valid(before) && Valid(after) && Valid(dy) && Valid(s)
    && SameShape(before, dy) && SameShape(after, dy) && SameShape(s, dy)
    && forall i, j :: 0 <= i < dy.rows && 0 <= j < dy.cols ==>
         after.data[i][j] == before.data[i][j] + dy.data[i][j] * s.data[i][j]
  }

  /** Adding a product, in either order, is gaining `dy` times the slope. */
  lemma ProductGain(before: Mat, after: Mat, dy: Mat, s: Mat, flipped: bool)
    requires Valid(before) && Valid(dy) && Valid(s) && SameShape(before, dy) && SameShape(s, dy)
    requires after == MatAdd(before, if flipped then Hadamard(s, dy) else Hadamard(dy, s))
    ensures GainsTimes(before, after, dy, s)
  {
  }

  /** `neg`: the operand loses `dy`. */
  lemma NegRule(g: Arena, num: Numerics, a: nat, dy: Mat)
    requires WellFormed(g) && a < |g| && g[a].children == [] && Valid(dy) && SameShape(dy, g[a].value)
    ensures var h := SetGrad(NegOp(g, a), |g|, dy);
      && WellFormed(h) && Differentiable(h, |g|) && Valid(g[a].grad) && SameShape(g[a].grad, dy)
      && Backward(h, num, |g|)[a].grad == MatSub(g[a].grad, dy)
  {
    var r := NegOp(g, a);
    var h := SetGrad(r, |g|, dy);
    SeedUnary(g, r, h, a, Neg, dy);
    LeavesDifferentiable(h, |g|);
    UnaryGrads(h, num, |g|, a);
    assert Contrib(h, num, |g|, 0) == MatNeg(dy);
    AddNegIsSub(g[a].grad, dy);
  }

  /** `exp`: the operand gains `dy` times the node's own output `exp(x)`. */
  lemma ExpRule(g: Arena, num: Numerics, a: nat, dy: Mat)
    requires WellFormed(g) && a < |g| && g[a].children == [] && Valid(dy) && SameShape(dy, g[a].value)
    ensures var h := SetGrad(ExpOp(g, num, a), |g|, dy);
      && WellFormed(h) && Differentiable(h, |g|)
      && GainsTimes(g[a].grad, Backward(h, num, |g|)[a].grad, dy, h[|g|].value)
  {
    var r := ExpOp(g, num, a);
    var h := SetGrad(r, |g|, dy);
    SeedUnary(g, r, h, a, Exp, dy);
    LeavesDifferentiable(h, |g|);
    UnaryGrads(h, num, |g|, a);
    assert Contrib(h, num, |g|, 0) == Hadamard(dy, h[|g|].value);
    ProductGain(g[a].grad, Backward(h, num, |g|)[a].grad, dy, h[|g|].value, false);
  }

  /** `tanh`: the operand gains `dy` times `1 - y^2`, from the node's own
      output `y`. */
  lemma TanhRule(g: Arena, num: Numerics, a: nat, dy: Mat)
    requires WellFormed(g) && a < |g| && g[a].children == [] && Valid(dy) && SameShape(dy, g[a].value)
    ensures var h := SetGrad(TanhOp(g, num, a), |g|, dy);
      && WellFormed(h) && Differentiable(h, |g|) && Valid(h[|g|].value)
      && GainsTimes(g[a].grad, Backward(h, num, |g|)[a].grad, dy, TanhSlope(h[|g|].value))
  {
    var r := TanhOp(g, num, a);
    var h := SetGrad(r, |g|, dy);
    SeedUnary(g, r, h, a, Tanh, dy);
    LeavesDifferentiable(h, |g|);
    UnaryGrads(h, num, |g|, a);
    assert Contrib(h, num, |g|, 0) == Hadamard(TanhSlope(h[|g|].value), dy);
    ProductGain(g[a].grad, Backward(h, num, |g|)[a].grad, dy, TanhSlope(h[|g|].value), true);
  }

  /** `relu`: the operand gains `dy` where the output is positive and
      nothing elsewhere. */
  lemma ReluRule(g: Arena, num: Numerics, a: nat, dy: Mat)
    requires WellFormed(g) && a < |g| && g[a].children == [] && Valid(dy) && SameShape(dy, g[a].value)
    ensures var h := SetGrad(ReluOp(g, a), |g|, dy);
      && WellFormed(h) && Differentiable(h, |g|) && Valid(h[|g|].value)
      && GainsTimes(g[a].grad, Backward(h, num, |g|)[a].grad, dy, ReluMask(h[|g|].value))
  {
    var r := ReluOp(g, a);
    var h := SetGrad(r, |g|, dy);
    SeedUnary(g, r, h, a, ReLU, dy);
    LeavesDifferentiable(h, |g|);
    UnaryGrads(h, num, |g|, a);
    assert Contrib(h, num, |g|, 0) == Hadamard(dy, ReluMask(h[|g|].value));
    ProductGain(g[a].grad, Backward(h, num, |g|)[a].grad, dy, ReluMask(h[|g|].value), false);
  }

  /** `log`: the operand gains `dy / x`, with the input `x` itself and not
      the `max(x, EPSILON)` the forward value used. */
  lemma LogRule(g: Arena, num: Numerics, a: nat, dy: Mat)
    requires WellFormed(g) && a < |g| && g[a].children == [] && Valid(dy) && SameShape(dy, g[a].value)
    requires Valid(g[a].value) && Nonzero(g[a].value)
    ensures var h := SetGrad(LogOp(g, num, a), |g|, dy);
      && WellFormed(h) && Differentiable(h, |g|)
      && GainsQuotient(g[a].grad, Backward(h, num, |g|)[a].grad, dy, g[a].value)
  {
    var r := LogOp(g, num, a);
    var h := SetGrad(r, |g|, dy);
    SeedUnary(g, r, h, a, Log, dy);
    assert DefinedAt(h, |g|);
    LeavesDifferentiable(h, |g|);
    UnaryGrads(h, num, |g|, a);
    assert Contrib(h, num, |g|, 0) == MatDiv(dy, g[a].value);
  }

  /** `pow(p)`: the operand gains `dy` times `p * x^(p-1)`, with `p` read
      back from the exponent leaf; the exponent leaf itself gains nothing. */
  lemma PowRule(g: Arena, num: Numerics, a: nat, p: real, dy: Mat)
    requires WellFormed(g) && a < |g| && g[a].children == [] && Valid(dy) && SameShape(dy, g[a].value)
    ensures var h := SetGrad(PowOp(g, num, a, p), |g| + 1, dy);
      && WellFormed(h) && Differentiable(h, |g| + 1) && Valid(g[a].value)
      && GainsTimes(g[a].grad, Backward(h, num, |g| + 1)[a].grad, dy, PowSlope(num, g[a].value, p))
      && Backward(h, num, |g| + 1)[|g|] == h[|g|]
  {
    var r := PowOp(g, num, a, p);
    var h := SetGrad(r, |g| + 1, dy);
    var root := |g| + 1;
    assert WellFormed(h) && |h| == |g| + 2;
    assert h[a] == g[a] && h[|g|] == r[|g|] && h[root].children == [a, |g|] && h[root].op == Pow && h[root].grad == dy;
    assert OverLeaves(h, root);
    LeavesDifferentiable(h, root);
    PowGather(h, num, root, a, |g|);
    var b := Backward(h, num, root);
    assert Contrib(h, num, root, 0) == Hadamard(dy, PowSlope(num, g[a].value, p)) by {
      assert Scalar(h[|g|].value) == p;
    }
    ProductGain(g[a].grad, b[a].grad, dy, PowSlope(num, g[a].value, p), false);
  }

  /** The gathering of a `Pow` node over its base and exponent leaf. */
  lemma PowGather(h: Arena, num: Numerics, root: nat, a: nat, e: nat)
    requires WellFormed(h) && root < |h| && Differentiable(h, root) && OverLeaves(h, root)
    requires a < |h| && e < |h| && a != e && h[root].children == [a, e] && h[root].op == Pow
    ensures Shaped(h, a) && DefinedAt(h, root)
    ensures Backward(h, num, root)[a].grad == MatAdd(h[a].grad, Contrib(h, num, root, 0))
    ensures Backward(h, num, root)[e] == h[e]
  {
    OneOpGrads(h, num, root, a);
    OneOpGrads(h, num, root, e);
    var ca := MatAdd(h[a].grad, Contrib(h, num, root, 0));
    assert Gather(ca, h, num, root, 1, a) == ca;
    assert Gather(h[e].grad, h, num, root, 1, e) == h[e].grad;
  }

  // ---------------------------------------------------------------- a second pass

  /** A second `backward` over a one-operation graph, without `zero_grad` in
      between, adds the operation's contributions again: the root keeps its
      seed and the values are unchanged, so the contributions are the same. */
  lemma RepeatAddsAgain(h: Arena, num: Numerics, root: nat, x: nat)
    requires WellFormed(h) && root < |h| && Differentiable(h, root) && OverLeaves(h, root) && x < |h|
    ensures Shaped(h, x) && DefinedAt(h, root)
    ensures var r := Backward(h, num, root);
      && Differentiable(r, root) && Valid(r[x].grad) && SameShape(r[x].grad, h[x].value)
      && Backward(r, num, root)[x].grad == Gather(r[x].grad, h, num, root, 0, x)
  {
    var r := Backward(h, num, root);
    assert Shaped(h, x) && Shaped(r, x);
    BackwardKeeps(h, num, root, root);
    FrameSymmetric(h, r);
    SecondPassDifferentiable(h, r, root);
    OneOpGrads(h, num, root, x);
    OneOpGrads(r, num, root, x);
    GatherFrame(r[x].grad, r, h, num, root, 0, x);
  }

  /** An arena that differs from `h` only in gradients is differentiable
      where `h` is, and over the same leaves. */
  lemma SecondPassDifferentiable(h: Arena, r: Arena, root: nat)
    requires WellFormed(h) && WellFormed(r) && SameFrame(h, r) && root < |h| && Differentiable(h, root)
    requires OverLeaves(h, root)
    ensures Differentiable(r, root) && OverLeaves(r, root)
  {
    ReachPrefix(h, r, root);
    forall x | x in Reach(r, root) ensures x < |r| && DefinedAt(r, x) {
      DefinedAtFrame(h, r, x);
    }
  }

  /** The repeated `add`: without `zero_grad`, a second pass adds `dy` to
      each operand again, so operands that started at zero end at `2 * dy`. */
  lemma AddTwice(g: Arena, num: Numerics, a: nat, b: nat, dy: Mat)
    requires WellFormed(g) && a < |g| && b < |g| && a != b && g[a].children == [] && g[b].children == []
    requires SameShape(g[a].value, g[b].value) && Valid(dy) && SameShape(dy, g[a].value)
    requires IsZero(g[a].grad) && IsZero(g[b].grad)
    ensures var h := SetGrad(AddOp(g, a, b), |g|, dy);
      && WellFormed(h) && Differentiable(h, |g|)
      && var r := Backward(h, num, |g|);
      && Differentiable(r, |g|)
      && Backward(r, num, |g|)[a].grad == MatScale(2.0, dy)
      && Backward(r, num, |g|)[b].grad == MatScale(2.0, dy)
  {
    var ar := AddOp(g, a, b);
    var h := SetGrad(ar, |g|, dy);
    SeedBinary(g, ar, h, a, b, Add, dy);
    LeavesDifferentiable(h, |g|);
    BinaryGrads(h, num, |g|, a, b);
    var r := Backward(h, num, |g|);
    RepeatAddsAgain(h, num, |g|, a);
    RepeatAddsAgain(h, num, |g|, b);
    assert Contrib(h, num, |g|, 0) == dy && Contrib(h, num, |g|, 1) == dy;
    BinaryGather(h, num, |g|, a, b, r[a].grad, a);
    BinaryGather(h, num, |g|, a, b, r[b].grad, b);
    AddedTwice(g[a].grad, r[a].grad, Gather(r[a].grad, h, num, |g|, 0, a), dy);
    AddedTwice(g[b].grad, r[b].grad, Gather(r[b].grad, h, num, |g|, 0, b), dy);
  }

  /** Zero plus `dy`, plus `dy` again, is `2 * dy`. */
  lemma AddedTwice(z: Mat, once: Mat, twice: Mat, dy: Mat)
    requires Valid(z) && Valid(dy) && SameShape(z, dy) && IsZero(z)
    requires once == MatAdd(z, dy) && twice == MatAdd(once, dy)
    ensures twice == MatScale(2.0, dy)
  {
    Ext(twice, MatScale(2.0, dy));
  }

  // ---------------------------------------------------------------- the unit tests

  /** Two fresh leaves holding `x` and `y`. */
  function TwoLeaves(x: Mat, y: Mat): (g: Arena)
    requires Valid(x) && Valid(y)
    ensures WellFormed(g) && |g| == 2 && g[0].children == [] && g[1].children == []
    ensures g[0].value == x && g[1].value == y && IsZero(g[0].grad) && IsZero(g[1].grad)
    ensures Valid(g[0].grad) && Valid(g[1].grad) && SameShape(g[0].grad, x) && SameShape(g[1].grad, y)
  {
    var g0 := New([], x);
    var g := New(g0, y);
    assert g[0] == g0[0];
    g
  }

  /** Zero plus `m` is `m`. */
  lemma ZeroPlus(z: Mat, m: Mat)
    requires Valid(z) && Valid(m) && SameShape(z, m) && IsZero(z)
    ensures MatAdd(z, m) == m
  {
    Ext(MatAdd(z, m), m);
  }

  /** `m` is the one-row matrix [[u, v]]. */
  predicate IsRow(m: Mat, u: real, v: real) {
    Valid(m) && m.rows == 1 && m.cols == 2 && m.data[0][0] == u && m.data[0][1] == v
  }

  /** `m` is the 2x2 matrix [[p, q], [u, v]]. */
  predicate IsSquare(m: Mat, p: real, q: real, u: real, v: real) {
    && Valid(m) && m.rows == 2 && m.cols == 2
    && m.data[0][0] == p && m.data[0][1] == q && m.data[1][0] == u && m.data[1][1] == v
  }

  /** The entry predicates pin the matrix down completely. */
  lemma EntriesDetermine(m: Mat, p: real, q: real, u: real, v: real)
    ensures IsRow(m, p, q) <==> m == Mat(1, 2, [[p, q]])
    ensures IsSquare(m, p, q, u, v) <==> m == Mat(2, 2, [[p, q], [u, v]])
  {
    if IsRow(m, p, q) {
      Ext(m, Mat(1, 2, [[p, q]]));
    }
    if IsSquare(m, p, q, u, v) {
      Ext(m, Mat(2, 2, [[p, q], [u, v]]));
    }
  }

  /** `test_add`: [[1,2],[3,4]] + [[5,6],[7,8]] seeded with ones gives both
      operands a gradient of ones. */
  lemma AddExample(num: Numerics, x: Mat, y: Mat, dy: Mat)
    requires IsSquare(x, 1.0, 2.0, 3.0, 4.0) && IsSquare(y, 5.0, 6.0, 7.0, 8.0)
    requires IsSquare(dy, 1.0, 1.0, 1.0, 1.0)
    ensures var h := SetGrad(AddOp(TwoLeaves(x, y), 0, 1), 2, dy);
      && WellFormed(h) && Differentiable(h, 2)
      && IsSquare(Backward(h, num, 2)[0].grad, 1.0, 1.0, 1.0, 1.0)
      && IsSquare(Backward(h, num, 2)[1].grad, 1.0, 1.0, 1.0, 1.0)
  {
    var g := TwoLeaves(x, y);
    AddRule(g, num, 0, 1, dy);
    ZeroPlus(g[0].grad, dy);
    ZeroPlus(g[1].grad, dy);
  }

  /** `test_sub`: [[10,5]] - [[3,2]] seeded with ones gives the first
      operand ones and the second minus ones. */
  lemma SubExample(num: Numerics, x: Mat, y: Mat, dy: Mat)
    requires IsRow(x, 10.0, 5.0) && IsRow(y, 3.0, 2.0) && IsRow(dy, 1.0, 1.0)
    ensures var h := SetGrad(SubOp(TwoLeaves(x, y), 0, 1), 2, dy);
      && WellFormed(h) && Differentiable(h, 2)
      && IsRow(Backward(h, num, 2)[0].grad, 1.0, 1.0)
      && IsRow(Backward(h, num, 2)[1].grad, -1.0, -1.0)
  {
    var g := TwoLeaves(x, y);
    SubRule(g, num, 0, 1, dy);
  }

  /** `test_div`: [[10,20]] / [[2,4]] seeded with ones gives the dividend
      [[0.5,0.25]] and the divisor [[-2.5,-1.25]]. */
  lemma DivExample(num: Numerics, x: Mat, y: Mat, dy: Mat)
    requires IsRow(x, 10.0, 20.0) && IsRow(y, 2.0, 4.0) && IsRow(dy, 1.0, 1.0)
    ensures Nonzero(y)
    ensures var h := SetGrad(DivOp(TwoLeaves(x, y), 0, 1), 2, dy);
      && WellFormed(h) && Differentiable(h, 2)
      && IsRow(Backward(h, num, 2)[0].grad, 0.5, 0.25)
      && IsRow(Backward(h, num, 2)[1].grad, -2.5, -1.25)
  {
    var g := TwoLeaves(x, y);
    DivRule(g, num, 0, 1, dy);
    var r := Backward(SetGrad(DivOp(g, 0, 1), 2, dy), num, 2);
    OnesOver(g[0].grad, r[0].grad, dy, y, 2.0, 4.0);
    QuotientSlopeRow(g[1].grad, r[1].grad, dy, x, y);
  }

  /** Ones divided entrywise by the row [[u, v]], gained from zero. */
  lemma OnesOver(before: Mat, after: Mat, dy: Mat, y: Mat, u: real, v: real)
    requires GainsQuotient(before, after, dy, y) && IsZero(before)
    requires IsRow(dy, 1.0, 1.0) && IsRow(y, u, v) && u != 0.0 && v != 0.0
    ensures IsRow(after, 1.0 / u, 1.0 / v)
  {
  }

  /** The divisor's update in `test_div`. */
  lemma QuotientSlopeRow(before: Mat, after: Mat, dy: Mat, x: Mat, y: Mat)
    requires LosesQuotientSlope(before, after, dy, x, y) && IsZero(before)
    requires IsRow(dy, 1.0, 1.0) && IsRow(x, 10.0, 20.0) && IsRow(y, 2.0, 4.0)
    ensures IsRow(after, -2.5, -1.25)
  {
  }

  /** `test_neg`: negating [[1,-2]] seeded with ones gives minus ones. */
  lemma NegExample(num: Numerics, x: Mat, dy: Mat)
    requires IsRow(x, 1.0, -2.0) && IsRow(dy, 1.0, 1.0)
    ensures var g := New([], x);
      var h := SetGrad(NegOp(g, 0), |g|, dy);
      && WellFormed(h) && Differentiable(h, |g|)
      && IsRow(Backward(h, num, |g|)[0].grad, -1.0, -1.0)
  {
    var g := New([], x);
    NegRule(g, num, 0, dy);
  }

  /** Ones times the row [[u, v]], gained from zero. */
  lemma OnesTimes(before: Mat, after: Mat, dy: Mat, s: Mat, u: real, v: real)
    requires GainsTimes(before, after, dy, s) && IsZero(before)
    requires IsRow(dy, 1.0, 1.0) && s.data[0][0] == u && s.data[0][1] == v
    ensures IsRow(after, u, v)
  {
  }

  /** `test_relu`: relu of [[-1,2]] seeded with ones passes the gradient
      only where the input is positive: [[0,1]]. */
  lemma ReluExample(num: Numerics, x: Mat, dy: Mat)
    requires IsRow(x, -1.0, 2.0) && IsRow(dy, 1.0, 1.0)
    ensures var g := New([], x);
      var h := SetGrad(ReluOp(g, 0), |g|, dy);
      && WellFormed(h) && Differentiable(h, |g|)
      && IsRow(Backward(h, num, |g|)[0].grad, 0.0, 1.0)
  {
    var g := New([], x);
    ReluRule(g, num, 0, dy);
    var h := SetGrad(ReluOp(g, 0), |g|, dy);
    ReluMaskExample(x, h[1].value);
    OnesTimes(g[0].grad, Backward(h, num, |g|)[0].grad, dy, ReluMask(h[1].value), 0.0, 1.0);
  }

  /** Relu of [[-1,2]] is positive at the second entry only. */
  lemma ReluMaskExample(x: Mat, y: Mat)
    requires IsRow(x, -1.0, 2.0) && Valid(y) && SameShape(y, x)
    requires forall i, j :: 0 <= i < x.rows && 0 <= j < x.cols ==>
               y.data[i][j] >= 0.0 && (y.data[i][j] > 0.0 <==> x.data[i][j] > 0.0)
    ensures ReluMask(y).data[0][0] == 0.0 && ReluMask(y).data[0][1] == 1.0
  {
    assert y.data[0][0] >= 0.0 && !(y.data[0][0] > 0.0);
    assert y.data[0][1] > 0.0;
  }

  /** `test_log`: log of [[10,20]] seeded with ones gives [[0.1,0.05]]. */
  lemma LogExample(num: Numerics, x: Mat, dy: Mat)
    requires IsRow(x, 10.0, 20.0) && IsRow(dy, 1.0, 1.0)
    ensures var g := New([], x);
      var h := SetGrad(LogOp(g, num, 0), |g|, dy);
      && WellFormed(h) && Differentiable(h, |g|)
      && IsRow(Backward(h, num, |g|)[0].grad, 0.1, 0.05)
  {
    var g := New([], x);
    LogRule(g, num, 0, dy);
    var r := Backward(SetGrad(LogOp(g, num, 0), |g|, dy), num, |g|);
    OnesOver(g[0].grad, r[0].grad, dy, x, 10.0, 20.0);
  }

  /** `test_pow`: squaring [[2,3]] seeded with ones gives `2x`, i.e. [[4,6]],
      for any `pow` that is the identity at exponent one on these inputs. */
  lemma PowExample(num: Numerics, x: Mat, dy: Mat)
    requires num.pow(2.0, 1.0) == 2.0 && num.pow(3.0, 1.0) == 3.0
    requires IsRow(x, 2.0, 3.0) && IsRow(dy, 1.0, 1.0)
    ensures var g := New([], x);
      var h := SetGrad(PowOp(g, num, 0, 2.0), |g| + 1, dy);
      && WellFormed(h) && Differentiable(h, |g| + 1)
      && IsRow(Backward(h, num, |g| + 1)[0].grad, 4.0, 6.0)
  {
    var g := New([], x);
    PowRule(g, num, 0, 2.0, dy);
    var h := SetGrad(PowOp(g, num, 0, 2.0), |g| + 1, dy);
    var s := PowSlope(num, x, 2.0);
    assert s.data[0][0] == 4.0 && s.data[0][1] == 6.0;
    OnesTimes(g[0].grad, Backward(h, num, |g| + 1)[0].grad, dy, s, 4.0, 6.0);
  }

  /** `test_exp`: exp of [[0,1]] seeded with ones gives the operand the
      forward value, [[1,e]], when `exp(0)` is one. */
  lemma ExpExample(num: Numerics, x: Mat, dy: Mat)
    requires num.exp(0.0) == 1.0
    requires IsRow(x, 0.0, 1.0) && IsRow(dy, 1.0, 1.0)
    ensures var g := New([], x);
      var h := SetGrad(ExpOp(g, num, 0), |g|, dy);
      && WellFormed(h) && Differentiable(h, |g|)
      && IsRow(Backward(h, num, |g|)[0].grad, 1.0, num.exp(1.0))
  {
    var g := New([], x);
    ExpRule(g, num, 0, dy);
    var h := SetGrad(ExpOp(g, num, 0), |g|, dy);
    assert h[1].value.data[0][0] == 1.0 && h[1].value.data[0][1] == num.exp(1.0);
    OnesTimes(g[0].grad, Backward(h, num, |g|)[0].grad, dy, h[1].value, 1.0, num.exp(1.0));
  }

  /** `test_tanh`: tanh at zero seeded with one gives slope one, when
      `tanh(0)` is zero. */
  lemma TanhExample(num: Numerics, x: Mat, dy: Mat)
    requires num.tanh(0.0) == 0.0
    requires Valid(x) && x.rows == 1 && x.cols == 1 && x.data[0][0] == 0.0
    requires Valid(dy) && dy.rows == 1 && dy.cols == 1 && dy.data[0][0] == 1.0
    ensures var g := New([], x);
      var h := SetGrad(TanhOp(g, num, 0), |g|, dy);
      && WellFormed(h) && Differentiable(h, |g|)
      && Backward(h, num, |g|)[0].grad.data[0][0] == 1.0
  {
    var g := New([], x);
    TanhRule(g, num, 0, dy);
    var h := SetGrad(TanhOp(g, num, 0), |g|, dy);
    assert h[1].value.data[0][0] == 0.0;
    assert TanhSlope(h[1].value).data[0][0] == 1.0;
  }

  /** Seeded with the identity, a product's left operand gains the right
      operand's transpose. */
  lemma IdentityTimesTranspose(z: Mat, id: Mat, y: Mat, after: Mat, p: real, q: real, u: real, v: real)
    requires IsSquare(z, 0.0, 0.0, 0.0, 0.0) && IsSquare(id, 1.0, 0.0, 0.0, 1.0) && IsSquare(y, p, q, u, v)
    requires after == MatAdd(z, MatMul(id, Transpose(y)))
    ensures IsSquare(after, p, u, q, v)
  {
    var t := Transpose(y);
    var m := MatMul(id, t);
    forall i, j | 0 <= i < 2 && 0 <= j < 2
      ensures m.data[i][j] == t.data[i][j]
    {
      assert Dot(id, t, i, j, 1) == id.data[i][0] * t.data[0][j];
      assert m.data[i][j] == id.data[i][0] * t.data[0][j] + id.data[i][1] * t.data[1][j];
    }
  }

  /** Seeded with the identity, a product's right operand gains the left
      operand's transpose. */
  lemma TransposeTimesIdentity(z: Mat, x: Mat, id: Mat, after: Mat, p: real, q: real, u: real, v: real)
    requires IsSquare(z, 0.0, 0.0, 0.0, 0.0) && IsSquare(id, 1.0, 0.0, 0.0, 1.0) && IsSquare(x, p, q, u, v)
    requires after == MatAdd(z, MatMul(Transpose(x), id))
    ensures IsSquare(after, p, u, q, v)
  {
    var t := Transpose(x);
    var m := MatMul(t, id);
    forall i, j | 0 <= i < 2 && 0 <= j < 2
      ensures m.data[i][j] == t.data[i][j]
    {
      assert Dot(t, id, i, j, 1) == t.data[i][0] * id.data[0][j];
      assert m.data[i][j] == t.data[i][0] * id.data[0][j] + t.data[i][1] * id.data[1][j];
    }
  }

  /** `test_mul`: [[1,2],[3,4]] times [[5,6],[7,8]] seeded with the identity
      gives each operand the transpose of the other. */
  lemma MulExample(num: Numerics, x: Mat, y: Mat, dy: Mat)
    requires IsSquare(x, 1.0, 2.0, 3.0, 4.0) && IsSquare(y, 5.0, 6.0, 7.0, 8.0)
    requires IsSquare(dy, 1.0, 0.0, 0.0, 1.0)
    ensures var h := SetGrad(MulOp(TwoLeaves(x, y), 0, 1), 2, dy);
      && WellFormed(h) && Differentiable(h, 2)
      && IsSquare(Backward(h, num, 2)[0].grad, 5.0, 7.0, 6.0, 8.0)
      && IsSquare(Backward(h, num, 2)[1].grad, 1.0, 3.0, 2.0, 4.0)
  {
    var g := TwoLeaves(x, y);
    MulRule(g, num, 0, 1, dy);
    var r := Backward(SetGrad(MulOp(g, 0, 1), 2, dy), num, 2);
    IdentityTimesTranspose(g[0].grad, dy, y, r[0].grad, 5.0, 6.0, 7.0, 8.0);
    TransposeTimesIdentity(g[1].grad, x, dy, r[1].grad, 1.0, 2.0, 3.0, 4.0);
  }
}
