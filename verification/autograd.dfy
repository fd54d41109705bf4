/** The computation graph of the autograd engine, held as an arena.

    A node is addressed by its position in the arena; that index is its
    identity. Every operation appends a fresh node whose children are
    existing nodes, so a child's index is always below its parent's: the
    graph is acyclic by construction. */
module Autograd {
  import opened Matrix

  /** The operation that produced a node; `None` marks a leaf. */
  datatype Op = Add | Sub | Neg | Mul | Div | Pow | Log | Exp | Tanh | ReLU | None

  /** One vertex: its forward value, the gradient accumulated into it, the
      operands it was derived from (in order), its op and a diagnostic name. */
  datatype Node = Node(value: Mat, grad: Mat, children: seq<nat>, op: Op, name: string)

  type Arena = seq<Node>

  /** The transcendental functions and the logarithm's positive floor. They are
      parameters of the model, so nothing is assumed about them beyond what a
      statement explicitly requires. */
  datatype Numerics = Numerics(exp: real -> real, ln: real -> real, tanh: real -> real,
                               pow: (real, real) -> real, eps: real)

  /** Every child index lies below its parent's index. */
  predicate Acyclic(g: Arena) {
    forall i, j :: 0 <= i < |g| && 0 <= j < |g[i].children| ==> g[i].children[j] < i
  }

  /** Node `i` has a rectangular value, a gradient of the same shape, the arity
      of its op, and operands whose shapes fit the op. */
  predicate Shaped(g: Arena, i: nat)
    requires Acyclic(g) && i < |g|
  {
    var n := g[i];
    var cs := n.children;
    Valid(n.value) && Valid(n.grad) && SameShape(n.grad, n.value) &&
    match n.op
    case None => |cs| == 0
    case Add | Sub | Div =>
      |cs| == 2 && SameShape(g[cs[0]].value, n.value) && SameShape(g[cs[1]].value, n.value)
    case Mul =>
      |cs| == 2 && g[cs[0]].value.rows == n.value.rows && g[cs[1]].value.cols == n.value.cols
      && g[cs[0]].value.cols == g[cs[1]].value.rows
    case Pow =>
      |cs| == 2 && SameShape(g[cs[0]].value, n.value) && g[cs[1]].value.rows == 1 && g[cs[1]].value.cols == 1
    case Neg | Log | Exp | Tanh | ReLU =>
      |cs| == 1 && SameShape(g[cs[0]].value, n.value)
  }

  /** The arena invariant that every operation keeps. */
  predicate WellFormed(g: Arena) {
    && Acyclic(g)
    && (forall i :: 0 <= i < |g| ==> Valid(g[i].value) && Valid(g[i].grad) && SameShape(g[i].grad, g[i].value))
    && (forall i :: 0 <= i < |g| ==> Shaped(g, i))
  }

  /** `h` has the values, children and ops of `g`. */
  predicate SameStructure(g: Arena, h: Arena) {
    |g| == |h| &&
    forall i :: 0 <= i < |g| ==>
      g[i].value == h[i].value && g[i].children == h[i].children && g[i].op == h[i].op
  }

  /** `h` differs from `g` at most in gradient entries. */
  predicate SameFrame(g: Arena, h: Arena) {
    SameStructure(g, h) && forall i :: 0 <= i < |g| ==> g[i].name == h[i].name
  }

  /** The gradient of every node keeps its shape. */
  predicate SameGradShapes(g: Arena, h: Arena)
    requires |g| == |h|
  {
    forall i :: 0 <= i < |g| ==> Valid(h[i].grad) && SameShape(g[i].grad, h[i].grad)
  }

  lemma FramePreservesWellFormed(g: Arena, h: Arena)
    requires WellFormed(g) && SameStructure(g, h) && SameGradShapes(g, h)
    ensures WellFormed(h)
  {
    forall i | 0 <= i < |h|
      ensures Shaped(h, i)
    {
      assert Shaped(g, i);
    }
  }

  /** The divisions the backward rule of node `p` performs are defined: a Div
      node's divisor and a Log node's input have no zero entry. */
  predicate DefinedAt(g: Arena, p: nat)
    requires WellFormed(g) && p < |g|
  {
    assert Shaped(g, p);
    match g[p].op
    case Div => Nonzero(g[g[p].children[1]].value)
    case Log => Nonzero(g[g[p].children[0]].value)
    case _ => true
  }

  // ---------------------------------------------------------------- leaves

  /** `Autograd::new`: a fresh leaf holding `v`, with a zero gradient of the
      same shape, no children, op `None` and an empty name. */
  function New(g: Arena, v: Mat): (r: Arena)
    requires Valid(v)
    ensures |r| == |g| + 1 && r[..|g|] == g
    ensures r[|g|].value == v && r[|g|].children == [] && r[|g|].op == None && r[|g|].name == ""
    ensures Valid(r[|g|].grad) && SameShape(r[|g|].grad, v) && IsZero(r[|g|].grad)
    ensures WellFormed(g) ==> WellFormed(r)
  {
    var r := g + [Node(v, ZerosLike(v), [], None, "")];
    assert WellFormed(g) ==> WellFormed(r) by {
      if WellFormed(g) {
        assert Acyclic(r);
        forall i | 0 <= i < |g| ensures Shaped(r, i) {
          assert Shaped(g, i) && r[i] == g[i];
        }
        assert Shaped(r, |g|);
      }
    }
    r
  }

  /** A fresh op node: the leaf of `value` with `children` and `op` attached. */
  function Derive(g: Arena, v: Mat, cs: seq<nat>, op: Op): (r: Arena)
    requires Valid(v)
  {
    g + [Node(v, ZerosLike(v), cs, op, "")]
  }

  /** The node appended last is `Derive`d with these children and op and a zero
      gradient shaped like its value; the older nodes are untouched. */
  predicate Appended(g: Arena, r: Arena, cs: seq<nat>, op: Op) {
    |r| == |g| + 1 && r[..|g|] == g
    && r[|g|].children == cs && r[|g|].op == op && r[|g|].name == ""
    && Valid(r[|g|].value) && Valid(r[|g|].grad) && SameShape(r[|g|].grad, r[|g|].value) && IsZero(r[|g|].grad)
  }

  lemma DerivePreserves(g: Arena, v: Mat, cs: seq<nat>, op: Op)
    requires WellFormed(g) && Valid(v)
    requires forall j :: 0 <= j < |cs| ==> cs[j] < |g|
    requires Acyclic(Derive(g, v, cs, op)) ==> Shaped(Derive(g, v, cs, op), |g|)
    ensures WellFormed(Derive(g, v, cs, op))
  {
    var r := Derive(g, v, cs, op);
    forall i | 0 <= i < |g|
      ensures Shaped(r, i)
    {
      assert Shaped(g, i);
    }
  }

  // ---------------------------------------------------------------- binary ops

  /** `add`: elementwise sum, children exactly `[a, b]`. */
  function AddOp(g: Arena, a: nat, b: nat): (r: Arena)
    requires WellFormed(g) && a < |g| && b < |g|
    requires SameShape(g[a].value, g[b].value)
    ensures WellFormed(r) && Appended(g, r, [a, b], Add)
    ensures SameShape(r[|g|].value, g[a].value)
    ensures forall i, j :: 0 <= i < g[a].value.rows && 0 <= j < g[a].value.cols ==>
              r[|g|].value.data[i][j] == g[a].value.data[i][j] + g[b].value.data[i][j]
  {
    assert Shaped(g, a) && Shaped(g, b);
    var v := MatAdd(g[a].value, g[b].value);
    DerivePreserves(g, v, [a, b], Add);
    Derive(g, v, [a, b], Add)
  }

  /** `sub`: elementwise difference, children exactly `[a, b]`. */
  function SubOp(g: Arena, a: nat, b: nat): (r: Arena)
    requires WellFormed(g) && a < |g| && b < |g|
    requires SameShape(g[a].value, g[b].value)
    ensures WellFormed(r) && Appended(g, r, [a, b], Sub)
    ensures SameShape(r[|g|].value, g[a].value)
    ensures forall i, j :: 0 <= i < g[a].value.rows && 0 <= j < g[a].value.cols ==>
              r[|g|].value.data[i][j] == g[a].value.data[i][j] - g[b].value.data[i][j]
  {
    assert Shaped(g, a) && Shaped(g, b);
    var v := MatSub(g[a].value, g[b].value);
    DerivePreserves(g, v, [a, b], Sub);
    Derive(g, v, [a, b], Sub)
  }

  /** `mul`: the matrix product (not elementwise); inner dimensions must agree. */
  function MulOp(g: Arena, a: nat, b: nat): (r: Arena)
    requires WellFormed(g) && a < |g| && b < |g|
    requires g[a].value.cols == g[b].value.rows
    ensures WellFormed(r) && Appended(g, r, [a, b], Mul)
    ensures r[|g|].value.rows == g[a].value.rows && r[|g|].value.cols == g[b].value.cols
    ensures Valid(g[a].value) && Valid(g[b].value)
    ensures forall i, j :: 0 <= i < g[a].value.rows && 0 <= j < g[b].value.cols ==>
              r[|g|].value.data[i][j] == Dot(g[a].value, g[b].value, i, j, g[a].value.cols)
  {
    assert Shaped(g, a) && Shaped(g, b);
    var v := MatMul(g[a].value, g[b].value);
    DerivePreserves(g, v, [a, b], Mul);
    Derive(g, v, [a, b], Mul)
  }

  /** `div`: elementwise quotient; the divisor has no zero entry. */
  function DivOp(g: Arena, a: nat, b: nat): (r: Arena)
    requires WellFormed(g) && a < |g| && b < |g|
    requires SameShape(g[a].value, g[b].value)
    requires Valid(g[b].value) && Nonzero(g[b].value)
    ensures WellFormed(r) && Appended(g, r, [a, b], Div)
    ensures SameShape(r[|g|].value, g[a].value)
    ensures forall i, j :: 0 <= i < g[a].value.rows && 0 <= j < g[a].value.cols ==>
              r[|g|].value.data[i][j] == g[a].value.data[i][j] / g[b].value.data[i][j]
  {
    assert Shaped(g, a) && Shaped(g, b);
    var v := MatDiv(g[a].value, g[b].value);
    DerivePreserves(g, v, [a, b], Div);
    Derive(g, v, [a, b], Div)
  }

  /** `pow(p)`: first a fresh 1x1 leaf holding `p` (index |g|), then the power
      node (index |g|+1) whose children are `[a, that leaf]`. */
  function PowOp(g: Arena, num: Numerics, a: nat, p: real): (r: Arena)
    requires WellFormed(g) && a < |g|
    ensures WellFormed(r) && |r| == |g| + 2 && r[..|g|] == g
    ensures r[|g|].op == None && r[|g|].children == [] && r[|g|].value == Fill(1, 1, p)
    ensures Appended(r[..|g| + 1], r, [a, |g|], Pow)
    ensures SameShape(r[|g| + 1].value, g[a].value)
    ensures forall i, j :: 0 <= i < g[a].value.rows && 0 <= j < g[a].value.cols ==>
              r[|g| + 1].value.data[i][j] == num.pow(g[a].value.data[i][j], p)
  {
    assert Shaped(g, a);
    var g1 := New(g, Fill(1, 1, p));
    var v := MatMap(g[a].value, x => num.pow(x, p));
    DerivePreserves(g1, v, [a, |g|], Pow);
    var r := Derive(g1, v, [a, |g|], Pow);
    assert r[..|g|] == g;
    r
  }

  // ---------------------------------------------------------------- unary ops

  /** A unary op node over `a` whose value is `f` applied to each entry. */
  function UnaryOp(g: Arena, a: nat, op: Op, f: real -> real): (r: Arena)
    requires WellFormed(g) && a < |g|
    requires op == Neg || op == Log || op == Exp || op == Tanh || op == ReLU
    ensures WellFormed(r) && Appended(g, r, [a], op)
    ensures SameShape(r[|g|].value, g[a].value)
    ensures forall i, j :: 0 <= i < g[a].value.rows && 0 <= j < g[a].value.cols ==>
              r[|g|].value.data[i][j] == f(g[a].value.data[i][j])
  {
    assert Shaped(g, a);
    var v := MatMap(g[a].value, f);
    DerivePreserves(g, v, [a], op);
    Derive(g, v, [a], op)
  }

  /** `log`: the natural logarithm of the input floored at `eps`. */
  function LogOp(g: Arena, num: Numerics, a: nat): (r: Arena)
    requires WellFormed(g) && a < |g|
    ensures WellFormed(r) && Appended(g, r, [a], Log)
    ensures SameShape(r[|g|].value, g[a].value)
    ensures forall i, j :: 0 <= i < g[a].value.rows && 0 <= j < g[a].value.cols ==>
              r[|g|].value.data[i][j] == num.ln(Max(g[a].value.data[i][j], num.eps))
  {
    UnaryOp(g, a, Log, x => num.ln(Max(x, num.eps)))
  }

  function Max(x: real, y: real): (m: real)
    ensures m >= x && m >= y && (m == x || m == y)
  {
    if x >= y then x else y
  }

  /** `neg`: elementwise negation. */
  function NegOp(g: Arena, a: nat): (r: Arena)
    requires WellFormed(g) && a < |g|
    ensures WellFormed(r) && Appended(g, r, [a], Neg)
    ensures SameShape(r[|g|].value, g[a].value)
    ensures forall i, j :: 0 <= i < g[a].value.rows && 0 <= j < g[a].value.cols ==>
              r[|g|].value.data[i][j] == -g[a].value.data[i][j]
  {
    UnaryOp(g, a, Neg, x => -x)
  }

  /** `exp`: elementwise exponential. */
  function ExpOp(g: Arena, num: Numerics, a: nat): (r: Arena)
    requires WellFormed(g) && a < |g|
    ensures WellFormed(r) && Appended(g, r, [a], Exp)
    ensures SameShape(r[|g|].value, g[a].value)
    ensures forall i, j :: 0 <= i < g[a].value.rows && 0 <= j < g[a].value.cols ==>
              r[|g|].value.data[i][j] == num.exp(g[a].value.data[i][j])
  {
    UnaryOp(g, a, Exp, num.exp)
  }

  /** `tanh`: elementwise hyperbolic tangent. */
  function TanhOp(g: Arena, num: Numerics, a: nat): (r: Arena)
    requires WellFormed(g) && a < |g|
    ensures WellFormed(r) && Appended(g, r, [a], Tanh)
    ensures SameShape(r[|g|].value, g[a].value)
    ensures forall i, j :: 0 <= i < g[a].value.rows && 0 <= j < g[a].value.cols ==>
              r[|g|].value.data[i][j] == num.tanh(g[a].value.data[i][j])
  {
    UnaryOp(g, a, Tanh, num.tanh)
  }

  /** `relu`: max(x, 0) elementwise; the output is positive exactly where the input is. */
  function ReluOp(g: Arena, a: nat): (r: Arena)
    requires WellFormed(g) && a < |g|
    ensures WellFormed(r) && Appended(g, r, [a], ReLU)
    ensures SameShape(r[|g|].value, g[a].value)
    ensures forall i, j :: 0 <= i < g[a].value.rows && 0 <= j < g[a].value.cols ==>
              r[|g|].value.data[i][j] >= 0.0
              && (r[|g|].value.data[i][j] > 0.0 <==> g[a].value.data[i][j] > 0.0)
              && (g[a].value.data[i][j] > 0.0 ==> r[|g|].value.data[i][j] == g[a].value.data[i][j])
  {
    UnaryOp(g, a, ReLU, x => if x > 0.0 then x else 0.0)
  }

  // ---------------------------------------------------------------- accessors

  /** `zero_grad`: the gradient becomes zeros of the value's shape; nothing
      else in the arena changes. */
  function ZeroGrad(g: Arena, i: nat): (r: Arena)
    requires i < |g|
    ensures |r| == |g| && SameFrame(g, r)
    ensures Valid(r[i].grad) && SameShape(r[i].grad, g[i].value) && IsZero(r[i].grad)
    ensures forall k :: 0 <= k < |g| && k != i ==> r[k] == g[k]
    ensures WellFormed(g) ==> WellFormed(r)
  {
    var r := g[i := g[i].(grad := ZerosLike(g[i].value))];
    if WellFormed(g) then assert Shaped(g, i); FramePreservesWellFormed(g, r); r else r
  }

  /** `set_value`: replaces the value of node `i` only. */
  function SetValue(g: Arena, i: nat, v: Mat): (r: Arena)
    requires i < |g|
    ensures |r| == |g| && r[i].value == v
    ensures r[i].grad == g[i].grad && r[i].children == g[i].children && r[i].op == g[i].op && r[i].name == g[i].name
    ensures forall k :: 0 <= k < |g| && k != i ==> r[k] == g[k]
  {
    g[i := g[i].(value := v)]
  }

  /** `set_grad`: replaces the gradient of node `i` only. */
  function SetGrad(g: Arena, i: nat, m: Mat): (r: Arena)
    requires i < |g|
    ensures |r| == |g| && SameFrame(g, r) && r[i].grad == m
    ensures forall k :: 0 <= k < |g| && k != i ==> r[k] == g[k]
    ensures WellFormed(g) && Valid(m) && SameShape(m, g[i].value) ==> WellFormed(r)
  {
    var r := g[i := g[i].(grad := m)];
    if WellFormed(g) && Valid(m) && SameShape(m, g[i].value) then
      assert Shaped(g, i);
      FramePreservesWellFormed(g, r);
      r
    else r
  }

  /** `set_name`: replaces the diagnostic name of node `i` only. */
  function SetName(g: Arena, i: nat, name: string): (r: Arena)
    requires i < |g|
    ensures |r| == |g| && r[i].name == name
    ensures r[i].value == g[i].value && r[i].grad == g[i].grad && r[i].children == g[i].children && r[i].op == g[i].op
    ensures forall k :: 0 <= k < |g| && k != i ==> r[k] == g[k]
    ensures WellFormed(g) ==> WellFormed(r)
  {
    var r := g[i := g[i].(name := name)];
    if WellFormed(g) then FramePreservesWellFormed(g, r); r else r
  }

  /** A well-formed arena stays well-formed when a value is replaced by one of
      the same shape. */
  lemma SetValueKeepsWellFormed(g: Arena, i: nat, v: Mat)
    requires WellFormed(g) && i < |g| && Valid(v) && SameShape(v, g[i].value)
    ensures WellFormed(SetValue(g, i, v))
  {
    var r := SetValue(g, i, v);
    forall k | 0 <= k < |r|
      ensures Shaped(r, k)
    {
      assert Shaped(g, k);
    }
  }

  /** `zero_grad` on each listed handle in turn: listed nodes get zero
      gradients of their value's shape, every other node is untouched, and a
      handle listed twice is harmless. */
  function ZeroGrads(g: Arena, ps: seq<nat>): (r: Arena)
    requires forall k :: 0 <= k < |ps| ==> ps[k] < |g|
    ensures |r| == |g| && SameFrame(g, r)
    ensures forall x :: 0 <= x < |g| ==>
              r[x] == if x in ps then g[x].(grad := ZerosLike(g[x].value)) else g[x]
    ensures WellFormed(g) ==> WellFormed(r)
    decreases |ps|
  {
    if ps == [] then g
    else
      var g1 := ZeroGrad(g, ps[0]);
      var r := ZeroGrads(g1, ps[1..]);
      assert forall x :: 0 <= x < |g| ==> g1[x].value == g[x].value;
      assert forall x :: x in ps <==> x == ps[0] || x in ps[1..];
      r
  }

  // ---------------------------------------------------------------- scalars

  /** Node `i` exists and holds a 1x1 value, as every parameter and input of
      the network layers does. */
  predicate ScalarAt(g: Arena, i: nat) {
    i < |g| && Valid(g[i].value) && g[i].value.rows == 1 && g[i].value.cols == 1
  }

  predicate AllScalar(g: Arena, s: seq<nat>) {
    forall k :: 0 <= k < |s| ==> ScalarAt(g, s[k])
  }

  /** The single entry of a scalar node. */
  function Val(g: Arena, i: nat): real
    requires ScalarAt(g, i)
  {
    Scalar(g[i].value)
  }

  /** The entries of a list of scalar nodes. */
  function Vals(g: Arena, s: seq<nat>): (v: seq<real>)
    requires AllScalar(g, s)
    ensures |v| == |s| && forall k :: 0 <= k < |s| ==> v[k] == Val(g, s[k])
  {
    seq(|s|, k requires 0 <= k < |s| => Val(g, s[k]))
  }

  /** `h` only appended nodes to `g`. */
  predicate Extends(g: Arena, h: Arena) {
    |g| <= |h| && forall i :: 0 <= i < |g| ==> h[i] == g[i]
  }

  lemma ExtendsTrans(g: Arena, h: Arena, k: Arena)
    requires Extends(g, h) && Extends(h, k)
    ensures Extends(g, k)
  {
  }

  /** Appending keeps every scalar node and its entry. */
  lemma ExtendsScalars(g: Arena, h: Arena, s: seq<nat>)
    requires Extends(g, h) && AllScalar(g, s)
    ensures AllScalar(h, s) && Vals(h, s) == Vals(g, s)
  {
    forall k | 0 <= k < |s| ensures ScalarAt(h, s[k]) && Val(h, s[k]) == Val(g, s[k]) {
      assert h[s[k]] == g[s[k]];
    }
  }

  /** Whether a node's backward divisions are defined depends only on the
      values, children and ops of the nodes up to it. */
  lemma DefinedAtPrefix(g: Arena, h: Arena, x: nat)
    requires WellFormed(g) && WellFormed(h) && x < |g| <= |h|
    requires forall i :: 0 <= i < |g| ==>
               h[i].value == g[i].value && h[i].children == g[i].children && h[i].op == g[i].op
    ensures DefinedAt(h, x) == DefinedAt(g, x)
  {
    assert Shaped(g, x);
  }

  lemma AppendedExtends(g: Arena, r: Arena, cs: seq<nat>, op: Op)
    requires Appended(g, r, cs, op)
    ensures Extends(g, r)
  {
    forall i | 0 <= i < |g| ensures r[i] == g[i] {
      assert r[..|g|][i] == r[i];
    }
  }

  lemma ValsTail(g: Arena, s: seq<nat>)
    requires AllScalar(g, s) && s != []
    ensures AllScalar(g, s[1..]) && Vals(g, s[1..]) == Vals(g, s)[1..]
  {
  }
}
