/** The backward dispatcher: walk the topological order from the root down and
    add each op's local-derivative contribution into its children's gradients. */
module BackwardPass {
  import opened Matrix
  import opened Autograd
  import opened Topo

  /** Whether child `j` of an `op` node receives a contribution. Leaves pass
      nothing on, and the exponent child of a power node never gains a gradient. */
  predicate Propagates(op: Op, j: nat) {
    op != None && (j == 0 || op == Add || op == Sub || op == Mul || op == Div)
  }

  /** `e * x^(e-1)` entrywise: the slope of `x^e`. */
  function PowSlope(num: Numerics, a: Mat, e: real): (m: Mat)
    requires Valid(a)
    ensures Valid(m) && SameShape(m, a)
    ensures forall i, j :: 0 <= i < a.rows && 0 <= j < a.cols ==> m.data[i][j] == e * num.pow(a.data[i][j], e - 1.0)
  {
    MatMap(a, x => e * num.pow(x, e - 1.0))
  }

  /** `1 - y^2` entrywise: the slope of tanh in terms of its output `y`. */
  function TanhSlope(y: Mat): (m: Mat)
    requires Valid(y)
    ensures Valid(m) && SameShape(m, y)
    ensures forall i, j :: 0 <= i < y.rows && 0 <= j < y.cols ==> m.data[i][j] == 1.0 - y.data[i][j] * y.data[i][j]
  {
    MatMap(y, v => 1.0 - v * v)
  }

  /** 1 where the output `y` is positive, 0 elsewhere: the slope of relu. */
  function ReluMask(y: Mat): (m: Mat)
    requires Valid(y)
    ensures Valid(m) && SameShape(m, y)
    ensures forall i, j :: 0 <= i < y.rows && 0 <= j < y.cols ==> m.data[i][j] == if y.data[i][j] > 0.0 then 1.0 else 0.0
  {
    MatMap(y, v => if v > 0.0 then 1.0 else 0.0)
  }

  /** The local-derivative contribution of node `p` to its child at position
      `j`, from the node's current gradient `dy`, its value `y` and its
      children's values. */
  function Contrib(g: Arena, num: Numerics, p: nat, j: nat): (m: Mat)
    requires WellFormed(g) && p < |g| && j < |g[p].children| && Propagates(g[p].op, j) && DefinedAt(g, p)
    ensures Valid(m) && SameShape(m, g[g[p].children[j]].value)
  {
    assert Shaped(g, p);
    var n := g[p];
    var dy := n.grad;
    var cs := n.children;
    match n.op
    case Add => dy
    case Sub => if j == 0 then dy else MatNeg(dy)
    case Mul =>
      if j == 0 then MatMul(dy, Transpose(g[cs[1]].value))
      else MatMul(Transpose(g[cs[0]].value), dy)
    case Div =>
      var a := g[cs[0]].value;
      var b := g[cs[1]].value;
      if j == 0 then MatDiv(dy, b)
      else
        NonzeroProduct(b, b);
        Hadamard(MatNeg(MatDiv(a, Hadamard(b, b))), dy)
    case Pow =>
      var e := Scalar(g[cs[1]].value);
      Hadamard(dy, PowSlope(num, g[cs[0]].value, e))
    case Log => MatDiv(dy, g[cs[0]].value)
    case Neg => MatNeg(dy)
    case Exp => Hadamard(dy, n.value)
    case Tanh => Hadamard(TanhSlope(n.value), dy)
    case ReLU => Hadamard(dy, ReluMask(n.value))
    case None => dy
  }

  /** Gradient entry `x` with matrix `m` added to it. */
  function AddInto(g: Arena, x: nat, m: Mat): (r: Arena)
    requires x < |g| && Valid(g[x].grad) && Valid(m) && SameShape(g[x].grad, m)
  {
    g[x := g[x].(grad := MatAdd(g[x].grad, m))]
  }

  /** The gradient of every node of `g` has the shape of its value in `g0`. */
  predicate GradsFit(g0: Arena, g: Arena) {
    WellFormed(g0) && SameFrame(g0, g) && SameGradShapes(g0, g)
  }

  /** Propagation out of node `p`, children `j` onwards, into the arena `g`,
      with the contributions computed from the arena `g0` as it was when the
      node's turn came. */
  function Push(g0: Arena, num: Numerics, p: nat, j: nat, g: Arena): (r: Arena)
    requires WellFormed(g0) && p < |g0| && j <= |g0[p].children| && DefinedAt(g0, p)
    requires GradsFit(g0, g)
    ensures GradsFit(g0, r)
    decreases |g0[p].children| - j
  {
    if j == |g0[p].children| then g
    else if Propagates(g0[p].op, j) then
      var c := g0[p].children[j];
      assert Shaped(g0, c);
      Push(g0, num, p, j + 1, AddInto(g, c, Contrib(g0, num, p, j)))
    else Push(g0, num, p, j + 1, g)
  }

  /** One turn of the walk: node `p` passes its contribution to each child in
      order. A leaf changes nothing; only gradients ever change. */
  function Step(g: Arena, num: Numerics, p: nat): (r: Arena)
    requires WellFormed(g) && p < |g| && DefinedAt(g, p)
    ensures WellFormed(r) && SameFrame(g, r)
    ensures g[p].op == None ==> r == g
  {
    assert GradsFit(g, g) by { assert forall i :: 0 <= i < |g| ==> Shaped(g, i); }
    var r := Push(g, num, p, 0, g);
    FramePreservesWellFormed(g, r);
    assert g[p].op == None ==> r == g by {
      if g[p].op == None { assert Shaped(g, p); }
    }
    r
  }

  /** The divisions every node of `order` performs are defined. */
  predicate Runnable(g: Arena, order: seq<nat>) {
    && WellFormed(g)
    && (forall k :: 0 <= k < |order| ==> order[k] < |g|)
    && (forall k :: 0 <= k < |order| ==> DefinedAt(g, order[k]))
  }

  lemma DefinedAtFrame(g: Arena, h: Arena, p: nat)
    requires WellFormed(g) && WellFormed(h) && SameFrame(g, h) && p < |g|
    ensures DefinedAt(g, p) == DefinedAt(h, p)
  {
    assert Shaped(g, p);
  }

  lemma RunnableFrame(g: Arena, h: Arena, order: seq<nat>)
    requires Runnable(g, order) && WellFormed(h) && SameFrame(g, h)
    ensures Runnable(h, order)
  {
    forall k | 0 <= k < |order|
      ensures DefinedAt(h, order[k])
    {
      DefinedAtFrame(g, h, order[k]);
    }
  }

  /** Steps through `order` from the front. */
  function Run(g: Arena, num: Numerics, order: seq<nat>): (r: Arena)
    requires Runnable(g, order)
    ensures WellFormed(r) && SameFrame(g, r)
    decreases |order|
  {
    if order == [] then g
    else
      var g1 := Step(g, num, order[0]);
      RunnableFrame(g, g1, order[1..]);
      Run(g1, num, order[1..])
  }

  function Reversed(s: seq<nat>): (r: seq<nat>)
    ensures |r| == |s| && forall i :: 0 <= i < |s| ==> r[i] == s[|s| - 1 - i]
  {
    if s == [] then [] else [s[|s| - 1]] + Reversed(s[..|s| - 1])
  }

  /** The nodes `backward` visits, root first. */
  function Order(g: Arena, root: nat): (o: seq<nat>)
    requires Acyclic(g) && root < |g|
    ensures |o| > 0 && o[0] == root && Distinct(o)
    ensures forall x :: x in o <==> x in Reach(g, root)
  {
    var t := GetTopo(g, root);
    var o := Reversed(t);
    assert forall x :: x in o <==> x in t by {
      forall x | x in t ensures x in o {
        var i :| 0 <= i < |t| && t[i] == x;
        assert o[|t| - 1 - i] == x;
      }
    }
    o
  }

  /** Every node reachable from the root has defined divisions. */
  predicate Differentiable(g: Arena, root: nat)
    requires WellFormed(g) && root < |g|
  {
    forall x :: x in Reach(g, root) ==> x < |g| && DefinedAt(g, x)
  }

  /** `backward`: run the topological order from `root` in reverse. */
  function Backward(g: Arena, num: Numerics, root: nat): (r: Arena)
    requires WellFormed(g) && root < |g| && Differentiable(g, root)
    ensures WellFormed(r) && SameFrame(g, r)
  {
    var o := Order(g, root);
    assert Runnable(g, o) by {
      forall k | 0 <= k < |o| ensures o[k] < |g| && DefinedAt(g, o[k]) {
        assert o[k] in Reach(g, root);
      }
    }
    Run(g, num, o)
  }

  // ---------------------------------------------------------------- accounting

  /** `acc` plus the contributions node `p` of the arena `r` passes to `x`,
      children `j` onwards: one term per position where `x` occurs as a child. */
  function Gather(acc: Mat, r: Arena, num: Numerics, p: nat, j: nat, x: nat): (m: Mat)
    requires WellFormed(r) && p < |r| && x < |r| && j <= |r[p].children| && DefinedAt(r, p)
    requires Valid(acc) && SameShape(acc, r[x].value)
    ensures Valid(m) && SameShape(m, r[x].value)
    decreases |r[p].children| - j
  {
    if j == |r[p].children| then acc
    else if r[p].children[j] == x && Propagates(r[p].op, j) then
      Gather(MatAdd(acc, Contrib(r, num, p, j)), r, num, p, j + 1, x)
    else Gather(acc, r, num, p, j + 1, x)
  }

  /** `acc` plus everything the nodes of `order`, in turn, pass to `x`. */
  function Accum(acc: Mat, r: Arena, num: Numerics, order: seq<nat>, x: nat): (m: Mat)
    requires Runnable(r, order) && x < |r|
    requires Valid(acc) && SameShape(acc, r[x].value)
    ensures Valid(m) && SameShape(m, r[x].value)
    decreases |order|
  {
    if order == [] then acc
    else Accum(Gather(acc, r, num, order[0], 0, x), r, num, order[1..], x)
  }

  /** The gradient of `x` after propagating out of `p` from child `j` on is
      its gradient before plus exactly the contributions `p` has for `x`. */
  lemma {:induction false} PushGathers(g0: Arena, num: Numerics, p: nat, j: nat, g: Arena, x: nat)
    requires WellFormed(g0) && p < |g0| && j <= |g0[p].children| && DefinedAt(g0, p)
    requires GradsFit(g0, g) && x < |g0|
    ensures Shaped(g0, x) && Valid(g[x].grad)
    ensures Push(g0, num, p, j, g)[x].grad == Gather(g[x].grad, g0, num, p, j, x)
    decreases |g0[p].children| - j
  {
    assert Shaped(g0, x);
    if j < |g0[p].children| {
      var c := g0[p].children[j];
      if Propagates(g0[p].op, j) {
        assert Shaped(g0, c);
        PushGathers(g0, num, p, j + 1, AddInto(g, c, Contrib(g0, num, p, j)), x);
      } else {
        PushGathers(g0, num, p, j + 1, g, x);
      }
    }
  }

  /** A node that is not among `p`'s children from `j` on gains nothing. */
  lemma {:induction false} GatherSkips(acc: Mat, r: Arena, num: Numerics, p: nat, j: nat, x: nat)
    requires WellFormed(r) && p < |r| && x < |r| && j <= |r[p].children| && DefinedAt(r, p)
    requires Valid(acc) && SameShape(acc, r[x].value)
    requires forall i :: j <= i < |r[p].children| ==> r[p].children[i] != x
    ensures Gather(acc, r, num, p, j, x) == acc
    decreases |r[p].children| - j
  {
    if j < |r[p].children| {
      GatherSkips(acc, r, num, p, j + 1, x);
    }
  }

  lemma ContribFrame(r: Arena, s: Arena, num: Numerics, p: nat, j: nat)
    requires WellFormed(r) && WellFormed(s) && SameFrame(r, s)
    requires p < |r| && j < |r[p].children| && Propagates(r[p].op, j) && DefinedAt(r, p) && DefinedAt(s, p)
    requires r[p].grad == s[p].grad
    ensures Contrib(r, num, p, j) == Contrib(s, num, p, j)
  {
    assert Shaped(r, p);
    var cs := r[p].children;
    assert r[p].value == s[p].value && cs == s[p].children && r[p].op == s[p].op;
    assert r[cs[0]].value == s[cs[0]].value;
    assert |cs| > 1 ==> r[cs[1]].value == s[cs[1]].value;
  }

  /** The contributions depend only on the node's gradient and on values. */
  lemma {:induction false} GatherFrame(acc: Mat, r: Arena, s: Arena, num: Numerics, p: nat, j: nat, x: nat)
    requires WellFormed(r) && WellFormed(s) && SameFrame(r, s)
    requires p < |r| && x < |r| && j <= |r[p].children| && DefinedAt(r, p) && DefinedAt(s, p)
    requires r[p].grad == s[p].grad
    requires Valid(acc) && SameShape(acc, r[x].value)
    ensures Gather(acc, r, num, p, j, x) == Gather(acc, s, num, p, j, x)
    decreases |r[p].children| - j
  {
    if j < |r[p].children| {
      if r[p].children[j] == x && Propagates(r[p].op, j) {
        ContribFrame(r, s, num, p, j);
        GatherFrame(MatAdd(acc, Contrib(r, num, p, j)), r, s, num, p, j + 1, x);
      } else {
        GatherFrame(acc, r, s, num, p, j + 1, x);
      }
    }
  }

  /** A node that is a child of none of the nodes of `order` keeps its gradient. */
  lemma {:induction false} RunUntouched(g: Arena, num: Numerics, order: seq<nat>, x: nat)
    requires Runnable(g, order) && x < |g|
    requires forall k :: 0 <= k < |order| ==> x !in g[order[k]].children
    ensures Run(g, num, order)[x].grad == g[x].grad
    decreases |order|
  {
    if order != [] {
      var p := order[0];
      var g1 := Step(g, num, p);
      assert GradsFit(g, g) by { assert forall i :: 0 <= i < |g| ==> Shaped(g, i); }
      PushGathers(g, num, p, 0, g, x);
      GatherSkips(g[x].grad, g, num, p, 0, x);
      RunnableFrame(g, g1, order[1..]);
      RunUntouched(g1, num, order[1..], x);
    }
  }

  /** No node of `order` is a child of a node that comes after it, so each
      node's gradient is final when its turn comes. */
  predicate ParentsFirst(g: Arena, order: seq<nat>)
    requires forall k :: 0 <= k < |order| ==> order[k] < |g|
  {
    forall a, b :: 0 <= a < b < |order| ==> order[a] !in g[order[b]].children
  }

  /** The chain rule as the walk applies it: after the walk, the gradient of
      every node is its gradient before plus, for each node of the order and
      each position where it has `x` as a child, that node's contribution,
      computed from the FINAL arena. Contributions are summed, never
      overwritten, so a node shared by several parents (or listed twice by
      one parent) receives every term. */
  lemma {:induction false} RunAccumulates(g: Arena, num: Numerics, order: seq<nat>, x: nat)
    requires Runnable(g, order) && x < |g| && ParentsFirst(g, order)
    ensures Runnable(Run(g, num, order), order)
    ensures Shaped(g, x)
    ensures Run(g, num, order)[x].grad == Accum(g[x].grad, Run(g, num, order), num, order, x)
    decreases |order|
  {
    assert Shaped(g, x);
    var r := Run(g, num, order);
    RunnableFrame(g, r, order);
    if order != [] {
      var p := order[0];
      var rest := order[1..];
      var g1 := Step(g, num, p);
      RunnableFrame(g, g1, rest);
      ParentsFirstTail(g, g1, order);
      RunAccumulates(g1, num, rest, x);
      assert GradsFit(g, g) by { assert forall i :: 0 <= i < |g| ==> Shaped(g, i); }
      PushGathers(g, num, p, 0, g, x);
      FirstKeepsGrad(g, num, order);
      DefinedAtFrame(g, r, p);
      GatherFrame(g[x].grad, g, r, num, p, 0, x);
    }
  }

  lemma ParentsFirstTail(g: Arena, h: Arena, order: seq<nat>)
    requires forall k :: 0 <= k < |order| ==> order[k] < |g|
    requires ParentsFirst(g, order) && SameFrame(g, h) && order != []
    ensures ParentsFirst(h, order[1..])
  {
    forall a, b | 0 <= a < b < |order| - 1
      ensures order[1..][a] !in h[order[1..][b]].children
    {
      assert order[1..][a] == order[a + 1] && order[1..][b] == order[b + 1];
      assert h[order[b + 1]].children == g[order[b + 1]].children;
    }
  }

  /** The first node of the order has its final gradient when its turn
      comes: neither its own step nor any later one writes to it. */
  lemma FirstKeepsGrad(g: Arena, num: Numerics, order: seq<nat>)
    requires Runnable(g, order) && order != [] && ParentsFirst(g, order)
    ensures Run(g, num, order)[order[0]].grad == g[order[0]].grad
  {
    var p := order[0];
    var rest := order[1..];
    var g1 := Step(g, num, p);
    assert Shaped(g, p);
    assert GradsFit(g, g) by { assert forall i :: 0 <= i < |g| ==> Shaped(g, i); }
    PushGathers(g, num, p, 0, g, p);
    GatherSkips(g[p].grad, g, num, p, 0, p);
    RunnableFrame(g, g1, rest);
    forall k | 0 <= k < |rest| ensures p !in g1[rest[k]].children {
      assert rest[k] == order[k + 1];
      assert g1[rest[k]].children == g[rest[k]].children;
    }
    RunUntouched(g1, num, rest, p);
  }

  /** The nodes `backward` visits, in its order, have their parents first. */
  lemma OrderParentsFirst(g: Arena, root: nat)
    requires Acyclic(g) && root < |g|
    ensures forall k :: 0 <= k < |Order(g, root)| ==> Order(g, root)[k] < |g|
    ensures ParentsFirst(g, Order(g, root))
  {
    var t := GetTopo(g, root);
    var o := Order(g, root);
    assert forall k :: 0 <= k < |o| ==> o[k] < |g| by {
      forall k | 0 <= k < |o| ensures o[k] < |g| { assert o[k] in Reach(g, root); }
    }
    forall a, b | 0 <= a < b < |o|
      ensures o[a] !in g[o[b]].children
    {
      var ia := |t| - 1 - a;
      var ib := |t| - 1 - b;
      assert o[a] == t[ia] && o[b] == t[ib] && ib < ia;
      assert t[ia] !in t[..ib];
      forall j | 0 <= j < |g[t[ib]].children|
        ensures g[t[ib]].children[j] != t[ia]
      {
        assert g[t[ib]].children[j] in t[..ib];
      }
    }
  }
}
