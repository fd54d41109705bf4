/** The optimizers' shared interface over a list of parameter handles:
    stochastic gradient descent's `step` and the default `zero_grad`. */
module Optimizer {
  import opened Matrix
  import opened Autograd

  /** A node whose value and gradient are rectangular and of one shape. */
  predicate Fits(n: Node) {
    Valid(n.value) && Valid(n.grad) && SameShape(n.grad, n.value)
  }

  /** `b` is `a` after its value moved `s` times its gradient downhill;
      gradient, children, op and name are those of `a`. */
  predicate Moved(a: Node, b: Node, s: real) {
    Fits(a) && b.value == MatSub(a.value, MatScale(s, a.grad))
    && b.grad == a.grad && b.children == a.children && b.op == a.op && b.name == a.name
  }

  /** One parameter's update: `value - lr * grad`, written back with
      `set_value`. */
  function SgdUpdate(g: Arena, p: nat, lr: real): (r: Arena)
    requires WellFormed(g) && p < |g|
    ensures WellFormed(r) && |r| == |g|
    ensures forall x :: 0 <= x < |g| && x != p ==> r[x] == g[x]
    ensures Moved(g[p], r[p], lr)
  {
    assert Shaped(g, p);
    var v := MatSub(g[p].value, MatScale(lr, g[p].grad));
    SetValueKeepsWellFormed(g, p, v);
    SetValue(g, p, v)
  }

  /** `SGD::step`: the parameters are updated one after another, in list
      order. A gradient is never written, so a handle listed `m` times moves
      by `m * lr` times its gradient, and a node that is not listed keeps
      everything. */
  function SgdStep(g: Arena, ps: seq<nat>, lr: real): (r: Arena)
    requires WellFormed(g) && forall k :: 0 <= k < |ps| ==> ps[k] < |g|
    ensures WellFormed(r) && |r| == |g|
    ensures forall x :: 0 <= x < |g| && x !in ps ==> r[x] == g[x]
    ensures forall x :: 0 <= x < |g| ==> Moved(g[x], r[x], (multiset(ps)[x] as real) * lr)
    decreases |ps|
  {
    if ps == [] then
      forall x | 0 <= x < |g| ensures Moved(g[x], g[x], 0.0 * lr) {
        NoStep(g[x], lr);
      }
      g
    else
      var g1 := SgdUpdate(g, ps[0], lr);
      var r := SgdStep(g1, ps[1..], lr);
      SgdJoinAll(g, g1, r, ps, lr);
      r
  }

  /** Chains the first update with the updates of the rest of the list. */
  lemma SgdJoinAll(g: Arena, g1: Arena, r: Arena, ps: seq<nat>, lr: real)
    requires ps != [] && ps[0] < |g| && |g1| == |g| && |r| == |g|
    requires forall x :: 0 <= x < |g| ==> Fits(g[x])
    requires forall x :: 0 <= x < |g| && x != ps[0] ==> g1[x] == g[x]
    requires Moved(g[ps[0]], g1[ps[0]], lr)
    requires forall x :: 0 <= x < |g| && x !in ps[1..] ==> r[x] == g1[x]
    requires forall x :: 0 <= x < |g| ==> Moved(g1[x], r[x], (multiset(ps[1..])[x] as real) * lr)
    ensures forall x :: 0 <= x < |g| && x !in ps ==> r[x] == g[x]
    ensures forall x :: 0 <= x < |g| ==> Moved(g[x], r[x], (multiset(ps)[x] as real) * lr)
  {
    forall x | 0 <= x < |g| ensures Moved(g[x], r[x], (multiset(ps)[x] as real) * lr) {
      MultisetCons(ps, x);
      var t := (multiset(ps[1..])[x] as real) * lr;
      assert Moved(g1[x], r[x], t);
      if x == ps[0] {
        MovedTwice(g[x], g1[x], r[x], lr, t);
        assert lr + t == (multiset(ps)[x] as real) * lr;
      } else {
        NoStep(g[x], lr);
        MovedTwice(g[x], g[x], r[x], 0.0 * lr, t);
        assert 0.0 * lr + t == (multiset(ps)[x] as real) * lr;
      }
    }
  }

  /** The count of `x` in a non-empty list splits at the head. */
  lemma MultisetCons(ps: seq<nat>, x: nat)
    requires ps != []
    ensures multiset(ps)[x] == (if x == ps[0] then 1 else 0) + multiset(ps[1..])[x]
  {
    assert ps == [ps[0]] + ps[1..];
  }

  /** A step of size zero moves nothing. */
  lemma NoStep(a: Node, lr: real)
    requires Fits(a)
    ensures Moved(a, a, 0.0 * lr)
  {
    Ext(MatSub(a.value, MatScale(0.0 * lr, a.grad)), a.value);
  }

  /** Two steps along the same gradient make one step of the summed size. */
  lemma MovedTwice(a: Node, b: Node, c: Node, s: real, t: real)
    requires Moved(a, b, s) && Moved(b, c, t)
    ensures Moved(a, c, s + t)
  {
    var want := MatSub(a.value, MatScale(s + t, a.grad));
    forall i, j | 0 <= i < a.value.rows && 0 <= j < a.value.cols
      ensures c.value.data[i][j] == want.data[i][j]
    {
      var e := a.grad.data[i][j];
      assert (s + t) * e == s * e + t * e;
    }
    Ext(c.value, want);
  }

  /** With every handle listed once, each listed parameter takes exactly one
      gradient step. */
  lemma SgdDistinct(g: Arena, ps: seq<nat>, lr: real, x: nat)
    requires WellFormed(g) && forall k :: 0 <= k < |ps| ==> ps[k] < |g|
    requires forall a, b :: 0 <= a < b < |ps| ==> ps[a] != ps[b]
    requires x in ps
    ensures x < |g| && Moved(g[x], SgdStep(g, ps, lr)[x], lr)
  {
    var k :| 0 <= k < |ps| && ps[k] == x;
    MultisetOnce(ps, k);
    assert 1.0 * lr == lr;
  }

  /** An entry that occurs once in a duplicate-free sequence is counted once. */
  lemma {:induction false} MultisetOnce(ps: seq<nat>, k: nat)
    requires k < |ps| && forall a, b :: 0 <= a < b < |ps| ==> ps[a] != ps[b]
    ensures multiset(ps)[ps[k]] == 1
  {
    if k == |ps| - 1 {
      var front := ps[..k];
      assert ps == front + [ps[k]];
      assert ps[k] !in front by {
        forall a | 0 <= a < |front| ensures front[a] != ps[k] {
          assert front[a] == ps[a];
        }
      }
    } else {
      var last := |ps| - 1;
      var front := ps[..last];
      assert ps == front + [ps[last]];
      assert front[k] == ps[k] && ps[last] != ps[k];
      MultisetOnce(front, k);
    }
  }

  /** After `zero_grad` on the same list, a step moves nothing. */
  lemma SgdAfterZeroGrad(g: Arena, ps: seq<nat>, lr: real)
    requires WellFormed(g) && forall k :: 0 <= k < |ps| ==> ps[k] < |g|
    ensures SgdStep(ZeroGrads(g, ps), ps, lr) == ZeroGrads(g, ps)
  {
    var z := ZeroGrads(g, ps);
    var r := SgdStep(z, ps, lr);
    forall x | 0 <= x < |g| ensures r[x] == z[x] {
      Ext(r[x].value, z[x].value);
    }
  }

  /** `zero_grad` twice is `zero_grad` once. */
  lemma ZeroGradsIdempotent(g: Arena, ps: seq<nat>)
    requires forall k :: 0 <= k < |ps| ==> ps[k] < |g|
    ensures ZeroGrads(ZeroGrads(g, ps), ps) == ZeroGrads(g, ps)
  {
    var z := ZeroGrads(g, ps);
    var zz := ZeroGrads(z, ps);
    forall x | 0 <= x < |g| ensures zz[x] == z[x] {
    }
  }

  /** The optimizer test: a 1x1 parameter at 10 with gradient 2 moves to 9.8
      under a learning rate of 0.1. */
  lemma SgdExample()
    ensures var g := SetGrad(New([], Fill(1, 1, 10.0)), 0, Fill(1, 1, 2.0));
      WellFormed(g) && Val(SgdStep(g, [0], 0.1), 0) == 9.8
  {
    var g := SetGrad(New([], Fill(1, 1, 10.0)), 0, Fill(1, 1, 2.0));
    assert multiset([0 as nat])[0] == 1;
  }
}
