/** The neural-network layer built on the engine: a neuron is a bias plus one
    weight per input, all 1x1 leaves; a layer is a list of neurons sharing an
    activation; a multi-layer perceptron chains layers. Weight initialisation
    draws from a seeded generator; here the drawn numbers are a parameter. */
module Nn {
  import opened Matrix
  import opened Autograd

  datatype Activation = ReLU | Tanh | Softmax | None

  datatype Neuron = Neuron(weights: seq<nat>, bias: nat)

  datatype Layer = Layer(neurons: seq<Neuron>, activation: Activation)

  datatype MLP = MLP(layers: seq<Layer>)

  /** The indices lo, lo+1, ..., lo+n-1. */
  function Range(lo: nat, n: nat): (s: seq<nat>)
    ensures |s| == n && forall k :: 0 <= k < n ==> s[k] == lo + k
  {
    seq(n, k => lo + k)
  }

  /** `s` lists the `n` consecutive indices from `lo`: the nodes created, in
      creation order, by a constructor that started at arena length `lo`. */
  predicate Consecutive(s: seq<nat>, lo: nat, n: nat) {
    |s| == n && forall k :: 0 <= k < n ==> s[k] == lo + k
  }

  lemma ConsecutiveSplit(a: seq<nat>, b: seq<nat>, lo: nat, m: nat, n: nat)
    requires Consecutive(a, lo, m) && Consecutive(b, lo + m, n)
    ensures Consecutive(a + b, lo, m + n)
  {
  }

  // ---------------------------------------------------------------- real reference

  /** `w0*x0 + w1*x1 + ...` over the pairs that both lists have; a longer
      list's extra entries are ignored, as `zip` does. */
  function Inner(ws: seq<real>, xs: seq<real>): real
    decreases |ws|
  {
    if ws == [] || xs == [] then 0.0 else ws[0] * xs[0] + Inner(ws[1..], xs[1..])
  }

  function Activate(act: Activation, num: Numerics, s: real): real {
    match act
    case ReLU => if s > 0.0 then s else 0.0
    case Tanh => num.tanh(s)
    case Softmax => s
    case None => s
  }

  /** The exponential is positive, so a sum of exponentials is a legal divisor. */
  ghost predicate ExpPositive(num: Numerics) {
    forall x :: num.exp(x) > 0.0
  }

  lemma ExpAt(num: Numerics, y: real)
    requires ExpPositive(num)
    ensures num.exp(y) > 0.0
  {
  }

  function SumExp(num: Numerics, ys: seq<real>): (s: real)
    requires ExpPositive(num)
    ensures s >= 0.0 && (ys != [] ==> s > 0.0)
    decreases |ys|
  {
    if ys == [] then 0.0
    else
      ExpAt(num, ys[0]);
      num.exp(ys[0]) + SumExp(num, ys[1..])
  }

  function Sum(ys: seq<real>): real
    decreases |ys|
  {
    if ys == [] then 0.0 else ys[0] + Sum(ys[1..])
  }

  /** exp(y_i) divided by the sum of all exp(y_j). */
  function SoftmaxOf(num: Numerics, ys: seq<real>): (p: seq<real>)
    requires ExpPositive(num)
    ensures |p| == |ys|
  {
    seq(|ys|, i requires 0 <= i < |ys| => num.exp(ys[i]) / SumExp(num, ys))
  }

  /** Summing the `k`-th suffix of a softmax gives that suffix's share. */
  lemma {:induction false} SoftmaxSuffix(num: Numerics, ys: seq<real>, k: nat)
    requires ExpPositive(num) && ys != [] && k <= |ys|
    ensures Sum(SoftmaxOf(num, ys)[k..]) == SumExp(num, ys[k..]) / SumExp(num, ys)
    decreases |ys| - k
  {
    var p := SoftmaxOf(num, ys);
    var s := SumExp(num, ys);
    if k < |ys| {
      SoftmaxSuffix(num, ys, k + 1);
      assert p[k..][1..] == p[k + 1..];
      assert ys[k..][1..] == ys[k + 1..];
      assert Sum(p[k..]) == p[k] + Sum(p[k + 1..]);
      assert SumExp(num, ys[k..]) == num.exp(ys[k]) + SumExp(num, ys[k + 1..]);
      assert num.exp(ys[k]) / s + SumExp(num, ys[k + 1..]) / s
          == (num.exp(ys[k]) + SumExp(num, ys[k + 1..])) / s;
    }
  }

  /** A softmax of a non-empty list is a probability vector: it sums to one. */
  lemma SoftmaxSumsToOne(num: Numerics, ys: seq<real>)
    requires ExpPositive(num) && ys != []
    ensures Sum(SoftmaxOf(num, ys)) == 1.0
  {
    SoftmaxSuffix(num, ys, 0);
    assert SoftmaxOf(num, ys)[0..] == SoftmaxOf(num, ys);
    assert ys[0..] == ys;
    var s := SumExp(num, ys);
    assert s > 0.0 && s / s == 1.0;
  }

  /** Every weight and bias of `n` is a scalar node. */
  predicate NeuronReady(g: Arena, n: Neuron) {
    AllScalar(g, n.weights) && ScalarAt(g, n.bias)
  }

  predicate LayerReady(g: Arena, l: Layer) {
    forall i :: 0 <= i < |l.neurons| ==> NeuronReady(g, l.neurons[i])
  }

  lemma NeuronReadyExtends(g: Arena, h: Arena, n: Neuron)
    requires Extends(g, h) && NeuronReady(g, n)
    ensures NeuronReady(h, n) && Vals(h, n.weights) == Vals(g, n.weights) && Val(h, n.bias) == Val(g, n.bias)
  {
    ExtendsScalars(g, h, n.weights);
    assert h[n.bias] == g[n.bias];
  }

  lemma LayerReadyExtends(g: Arena, h: Arena, l: Layer)
    requires Extends(g, h) && LayerReady(g, l)
    ensures LayerReady(h, l)
  {
    forall i | 0 <= i < |l.neurons| ensures NeuronReady(h, l.neurons[i]) {
      NeuronReadyExtends(g, h, l.neurons[i]);
    }
  }

  /** The softmax of a layer needs a first output to start its sum from, and
      the sum must be a legal divisor. */
  ghost predicate SoftmaxSafe(num: Numerics, l: Layer) {
    l.activation == Softmax ==> |l.neurons| > 0 && ExpPositive(num)
  }

  /** bias + sum of weight * input, over real inputs. */
  function Pre(g: Arena, n: Neuron, xs: seq<real>): real
    requires NeuronReady(g, n)
  {
    Val(g, n.bias) + Inner(Vals(g, n.weights), xs)
  }

  /** Each neuron's activated sum, before any softmax. */
  function Pres(g: Arena, num: Numerics, l: Layer, xs: seq<real>): (ys: seq<real>)
    requires LayerReady(g, l)
    ensures |ys| == |l.neurons|
    ensures forall i :: 0 <= i < |l.neurons| ==> ys[i] == Activate(l.activation, num, Pre(g, l.neurons[i], xs))
  {
    seq(|l.neurons|, i requires 0 <= i < |l.neurons| => Activate(l.activation, num, Pre(g, l.neurons[i], xs)))
  }

  /** What a layer computes from real inputs, reading its parameters from `g`. */
  function LayerEval(g: Arena, num: Numerics, l: Layer, xs: seq<real>): (ys: seq<real>)
    requires LayerReady(g, l) && SoftmaxSafe(num, l)
    ensures |ys| == |l.neurons|
  {
    var pre := Pres(g, num, l, xs);
    if l.activation == Softmax then SoftmaxOf(num, pre) else pre
  }

  ghost predicate Ready(g: Arena, num: Numerics, layers: seq<Layer>) {
    forall i :: 0 <= i < |layers| ==> LayerReady(g, layers[i]) && SoftmaxSafe(num, layers[i])
  }

  /** What the network computes from real inputs: the layers applied in turn. */
  function MLPEval(g: Arena, num: Numerics, layers: seq<Layer>, xs: seq<real>): seq<real>
    requires Ready(g, num, layers)
    decreases |layers|
  {
    if layers == [] then xs else MLPEval(g, num, layers[1..], LayerEval(g, num, layers[0], xs))
  }

  // ---------------------------------------------------------------- construction

  /** A fresh scalar leaf holding `x`. */
  predicate LeafOf(g: Arena, i: nat, x: real) {
    ScalarAt(g, i) && Val(g, i) == x && g[i].children == [] && g[i].op == Op.None
    && Valid(g[i].grad) && IsZero(g[i].grad)
  }

  /** Fresh scalar leaves holding the entries of `w`, in order. */
  function Leaves(g: Arena, w: seq<real>): (r: Arena)
    ensures |r| == |g| + |w| && Extends(g, r)
    ensures forall k :: 0 <= k < |w| ==> LeafOf(r, |g| + k, w[k])
    ensures WellFormed(g) ==> WellFormed(r)
    decreases |w|
  {
    if w == [] then g
    else
      var g1 := New(g, Fill(1, 1, w[0]));
      assert Extends(g, g1) by {
        forall i | 0 <= i < |g| ensures g1[i] == g[i] { assert g1[..|g|][i] == g1[i]; }
      }
      var r := Leaves(g1, w[1..]);
      assert LeafOf(g1, |g|, w[0]);
      forall k | 1 <= k < |w| ensures LeafOf(r, |g| + k, w[k]) {
        assert w[1..][k - 1] == w[k];
      }
      r
  }

  /** `Neuron::new(nin, seed)` with the drawn weights given as `w`: one fresh
      weight leaf per input, then a bias leaf holding zero. */
  function NewNeuron(g: Arena, w: seq<real>): (r: (Arena, Neuron))
    ensures |r.0| == |g| + |w| + 1 && Extends(g, r.0)
    ensures |r.1.weights| == |w| && r.1.bias == |g| + |w|
    ensures forall k :: 0 <= k < |w| ==> r.1.weights[k] == |g| + k && LeafOf(r.0, |g| + k, w[k])
    ensures LeafOf(r.0, r.1.bias, 0.0) && NeuronReady(r.0, r.1)
    ensures WellFormed(g) ==> WellFormed(r.0)
  {
    var g1 := Leaves(g, w);
    var g2 := New(g1, Fill(1, 1, 0.0));
    assert Extends(g1, g2) by {
      forall i | 0 <= i < |g1| ensures g2[i] == g1[i] { assert g2[..|g1|][i] == g2[i]; }
    }
    (g2, Neuron(Range(|g|, |w|), |g| + |w|))
  }

  /** `Neuron::parameters`: the weights, then the bias. */
  function NeuronParameters(n: Neuron): seq<nat> {
    n.weights + [n.bias]
  }

  /** A new neuron's parameters are exactly the `nin + 1` nodes it created. */
  lemma NewNeuronParameters(g: Arena, w: seq<real>)
    ensures Consecutive(NeuronParameters(NewNeuron(g, w).1), |g|, |w| + 1)
  {
  }

  function LayerParameters(ns: seq<Neuron>): seq<nat>
    decreases |ns|
  {
    if ns == [] then [] else NeuronParameters(ns[0]) + LayerParameters(ns[1..])
  }

  lemma MulSucc(a: nat, b: nat)
    ensures (a + 1) * b == b + a * b
  {
  }

  /** `Layer::new(nin, nout, activation, seed)` with neuron `i`'s draws given as
      `w[i]`: one fresh neuron per output, each over `nin` inputs. */
  function NewLayer(g: Arena, w: seq<seq<real>>, nin: nat, act: Activation): (r: (Arena, Layer))
    requires forall i :: 0 <= i < |w| ==> |w[i]| == nin
    ensures |r.0| == |g| + |w| * (nin + 1) && Extends(g, r.0)
    ensures LayerShape(r.1, |w|, nin, act)
    ensures Consecutive(LayerParameters(r.1.neurons), |g|, |w| * (nin + 1))
    ensures LayerReady(r.0, r.1)
    ensures WellFormed(g) ==> WellFormed(r.0)
    decreases |w|
  {
    if w == [] then (g, Layer([], act))
    else
      var (g1, n) := NewNeuron(g, w[0]);
      var (g2, l) := NewLayer(g1, w[1..], nin, act);
      NewNeuronParameters(g, w[0]);
      ExtendsTrans(g, g1, g2);
      NewLayerJoin(g, g1, g2, |w|, nin, act, n, l);
      (g2, Layer([n] + l.neurons, act))
  }

  /** The first neuron followed by the rest of the layer. */
  lemma NewLayerJoin(g: Arena, g1: Arena, g2: Arena, nout: nat, nin: nat, act: Activation, n: Neuron, l: Layer)
    requires nout > 0 && Extends(g1, g2) && |g1| == |g| + (nin + 1) && |g2| == |g1| + (nout - 1) * (nin + 1)
    requires |n.weights| == nin && NeuronReady(g1, n) && Consecutive(NeuronParameters(n), |g|, nin + 1)
    requires LayerShape(l, nout - 1, nin, act) && LayerReady(g2, l)
    requires Consecutive(LayerParameters(l.neurons), |g1|, (nout - 1) * (nin + 1))
    ensures |g2| == |g| + nout * (nin + 1)
    ensures LayerShape(Layer([n] + l.neurons, act), nout, nin, act)
    ensures Consecutive(LayerParameters([n] + l.neurons), |g|, nout * (nin + 1))
    ensures LayerReady(g2, Layer([n] + l.neurons, act))
  {
    var ns := [n] + l.neurons;
    assert ns[1..] == l.neurons;
    MulSucc(nout - 1, nin + 1);
    var p0, p1 := NeuronParameters(n), LayerParameters(l.neurons);
    ConsecutiveSplit(p0, p1, |g|, nin + 1, (nout - 1) * (nin + 1));
    assert LayerParameters(ns) == p0 + p1;
    NeuronReadyExtends(g1, g2, n);
  }

  /** `l` has `nout` neurons of `nin` weights each and activation `act`. */
  predicate LayerShape(l: Layer, nout: nat, nin: nat, act: Activation) {
    |l.neurons| == nout && l.activation == act
    && forall k :: 0 <= k < nout ==> |l.neurons[k].weights| == nin
  }

  /** Hidden layers use ReLU; the last layer uses softmax. */
  function LayerActivation(nouts: seq<nat>, i: nat): Activation {
    if i + 1 < |nouts| then Activation.ReLU else Softmax
  }

  /** The input width of every layer: the network's input, then each output. */
  function Sizes(nin: nat, nouts: seq<nat>): seq<nat> {
    [nin] + nouts
  }

  /** Layer `i` has `nouts[i]` neurons over `Sizes(nin, nouts)[i]` inputs. */
  predicate DrawsFit(nin: nat, nouts: seq<nat>, w: seq<seq<seq<real>>>) {
    |w| == |nouts| &&
    forall i :: 0 <= i < |w| ==>
      |w[i]| == nouts[i] && (forall k :: 0 <= k < |w[i]| ==> |w[i][k]| == Sizes(nin, nouts)[i])
  }

  lemma DrawsFitTail(nin: nat, nouts: seq<nat>, w: seq<seq<seq<real>>>)
    requires DrawsFit(nin, nouts, w) && nouts != []
    ensures DrawsFit(nouts[0], nouts[1..], w[1..])
    ensures forall k :: 0 <= k < |w[0]| ==> |w[0][k]| == nin
  {
    forall i | 0 <= i < |w| - 1
      ensures forall k :: 0 <= k < |w[1..][i]| ==> |w[1..][i][k]| == Sizes(nouts[0], nouts[1..])[i]
    {
      assert Sizes(nouts[0], nouts[1..])[i] == Sizes(nin, nouts)[i + 1];
    }
  }

  /** sum over layers of nouts[i] * (inputs of layer i + 1). */
  function ParamCount(nin: nat, nouts: seq<nat>): nat
    decreases |nouts|
  {
    if nouts == [] then 0 else nouts[0] * (nin + 1) + ParamCount(nouts[0], nouts[1..])
  }

  function MLPParameters(layers: seq<Layer>): seq<nat>
    decreases |layers|
  {
    if layers == [] then [] else LayerParameters(layers[0].neurons) + MLPParameters(layers[1..])
  }

  /** `MLP::new(nin, nouts, seed)` with the draws given as `w`: layer `i` maps
      `Sizes[i]` inputs to `nouts[i]` outputs; every layer but the last uses
      ReLU, the last uses softmax. */
  function NewMLP(g: Arena, nin: nat, nouts: seq<nat>, w: seq<seq<seq<real>>>): (r: (Arena, MLP))
    requires DrawsFit(nin, nouts, w)
    ensures |r.0| == |g| + ParamCount(nin, nouts) && Extends(g, r.0)
    ensures |r.1.layers| == |nouts|
    ensures forall i :: 0 <= i < |nouts| ==> LayerShape(r.1.layers[i], nouts[i], Sizes(nin, nouts)[i], LayerActivation(nouts, i))
    ensures Consecutive(MLPParameters(r.1.layers), |g|, ParamCount(nin, nouts))
    ensures forall i :: 0 <= i < |nouts| ==> LayerReady(r.0, r.1.layers[i])
    ensures WellFormed(g) ==> WellFormed(r.0)
    decreases |nouts|
  {
    if nouts == [] then (g, MLP([]))
    else
      var act := LayerActivation(nouts, 0);
      var (g1, l) := NewLayer(g, w[0], nin, act);
      DrawsFitTail(nin, nouts, w);
      var (g2, m) := NewMLP(g1, nouts[0], nouts[1..], w[1..]);
      ExtendsTrans(g, g1, g2);
      NewMLPJoin(g, g1, g2, nin, nouts, l, m);
      (g2, MLP([l] + m.layers))
  }

  /** The first layer followed by the rest of the network. */
  lemma NewMLPJoin(g: Arena, g1: Arena, g2: Arena, nin: nat, nouts: seq<nat>, l: Layer, m: MLP)
    requires nouts != [] && Extends(g1, g2)
    requires LayerShape(l, nouts[0], nin, LayerActivation(nouts, 0)) && LayerReady(g1, l)
    requires Consecutive(LayerParameters(l.neurons), |g|, nouts[0] * (nin + 1))
    requires |m.layers| == |nouts| - 1
    requires forall i :: 0 <= i < |nouts| - 1 ==>
               LayerShape(m.layers[i], nouts[1..][i], Sizes(nouts[0], nouts[1..])[i], LayerActivation(nouts[1..], i))
               && LayerReady(g2, m.layers[i])
    requires Consecutive(MLPParameters(m.layers), |g| + nouts[0] * (nin + 1), ParamCount(nouts[0], nouts[1..]))
    ensures forall i :: 0 <= i < |nouts| ==>
              LayerShape(([l] + m.layers)[i], nouts[i], Sizes(nin, nouts)[i], LayerActivation(nouts, i))
              && LayerReady(g2, ([l] + m.layers)[i])
    ensures Consecutive(MLPParameters([l] + m.layers), |g|, ParamCount(nin, nouts))
  {
    var ls := [l] + m.layers;
    assert ls[1..] == m.layers;
    ConsecutiveSplit(LayerParameters(l.neurons), MLPParameters(m.layers), |g|, nouts[0] * (nin + 1), ParamCount(nouts[0], nouts[1..]));
    assert MLPParameters(ls) == LayerParameters(l.neurons) + MLPParameters(m.layers);
    forall i | 0 <= i < |nouts|
      ensures LayerShape(ls[i], nouts[i], Sizes(nin, nouts)[i], LayerActivation(nouts, i))
      ensures LayerReady(g2, ls[i])
    {
      if i == 0 {
        LayerReadyExtends(g1, g2, l);
      } else {
        assert ls[i] == m.layers[i - 1];
        assert Sizes(nouts[0], nouts[1..])[i - 1] == Sizes(nin, nouts)[i];
        assert LayerActivation(nouts[1..], i - 1) == LayerActivation(nouts, i);
      }
    }
  }

  /** The example network of two inputs and layers of 4 and 1 neurons has
      4 * 3 + 1 * 5 = 17 parameters. */
  lemma ExampleParamCount(g: Arena, w: seq<seq<seq<real>>>)
    requires DrawsFit(2, [4, 1], w)
    ensures |MLPParameters(NewMLP(g, 2, [4, 1], w).1.layers)| == 17
  {
    assert ParamCount(2, [4, 1]) == 17 by {
      assert [4, 1][1..] == [1];
      assert [1][1..] == [];
    }
  }

  // ---------------------------------------------------------------- graph shapes

  /** Node `i` of `h` applies `op` to exactly the operands `cs`. */
  predicate NodeIs(h: Arena, i: nat, op: Op, cs: seq<nat>) {
    i < |h| && h[i].op == op && h[i].children == cs
  }

  lemma NodeIsExtends(g: Arena, h: Arena, i: nat, op: Op, cs: seq<nat>)
    requires Extends(g, h) && NodeIs(g, i, op, cs)
    ensures NodeIs(h, i, op, cs)
  {
    assert h[i] == g[i];
  }

  /** The last of `len` chain nodes appended from `base` onto the start
      `acc`; the start itself when nothing was appended. */
  function ChainEnd(acc: nat, base: nat, len: nat): nat {
    if len == 0 then acc else base + len - 1
  }

  /** How many pairs `zip` forms from the two lists. */
  function Pairs(ws: seq<nat>, xs: seq<nat>): nat {
    if |ws| <= |xs| then |ws| else |xs|
  }

  /** From `base` on, per pair `k`: the product node `w_k * x_k`, then the sum
      node over the previous sum (`acc` for the first pair) and that product. */
  predicate ProductChain(h: Arena, base: nat, acc: nat, ws: seq<nat>, xs: seq<nat>) {
    && base + 2 * Pairs(ws, xs) <= |h|
    && forall k :: 0 <= k < Pairs(ws, xs) ==>
         && NodeIs(h, base + 2 * k, Op.Mul, [ws[k], xs[k]])
         && NodeIs(h, base + 2 * k + 1, Op.Add, [ChainEnd(acc, base, 2 * k), base + 2 * k])
  }

  /** From `base` on, one `exp` node per entry of `s`, in order. */
  predicate ExpRow(h: Arena, base: nat, s: seq<nat>) {
    base + |s| <= |h| && forall i :: 0 <= i < |s| ==> NodeIs(h, base + i, Op.Exp, [s[i]])
  }

  /** From `base` on, one `add` node per entry of `s`, each over the previous
      sum (`acc` for the first) and that entry. */
  predicate AddChain(h: Arena, base: nat, acc: nat, s: seq<nat>) {
    base + |s| <= |h| && forall k :: 0 <= k < |s| ==> NodeIs(h, base + k, Op.Add, [ChainEnd(acc, base, k), s[k]])
  }

  /** From `base` on, one `div` node per entry of `s`, each dividing that
      entry by the one shared node `d`. */
  predicate DivRow(h: Arena, base: nat, s: seq<nat>, d: nat) {
    base + |s| <= |h| && forall i :: 0 <= i < |s| ==> NodeIs(h, base + i, Op.Div, [s[i], d])
  }

  /** Softmax outputs: `div` nodes that all share their divisor, each
      dividing an `exp` node. */
  predicate SharedDivisor(h: Arena, outs: seq<nat>) {
    forall i :: 0 <= i < |outs| ==>
      && outs[i] < |h| && outs[0] < |h|
      && h[outs[i]].op == Op.Div && |h[outs[i]].children| == 2
      && |h[outs[0]].children| == 2 && h[outs[i]].children[1] == h[outs[0]].children[1]
      && h[outs[i]].children[0] < |h| && h[h[outs[i]].children[0]].op == Op.Exp
  }

  // ---------------------------------------------------------------- forward pass

  /** `acc.add(&w.mul(x))`: the product node, then the sum node. */
  function MulAdd(g: Arena, acc: nat, w: nat, x: nat): (r: (Arena, nat))
    requires WellFormed(g) && ScalarAt(g, acc) && ScalarAt(g, w) && ScalarAt(g, x)
    ensures WellFormed(r.0) && Extends(g, r.0) && ScalarAt(r.0, r.1)
    ensures Val(r.0, r.1) == Val(g, acc) + Val(g, w) * Val(g, x)
    ensures |r.0| == |g| + 2 && r.1 == |g| + 1
    ensures NodeIs(r.0, |g|, Op.Mul, [w, x]) && NodeIs(r.0, |g| + 1, Op.Add, [acc, |g|])
  {
    var g1 := MulOp(g, w, x);
    AppendedExtends(g, g1, [w, x], Op.Mul);
    assert Dot(g[w].value, g[x].value, 0, 0, 1) == Val(g, w) * Val(g, x);
    assert ScalarAt(g1, |g|) && Val(g1, |g|) == Val(g, w) * Val(g, x);
    var g2 := AddOp(g1, acc, |g|);
    AppendedExtends(g1, g2, [acc, |g|], Op.Add);
    assert ScalarAt(g2, |g1|) && Val(g2, |g1|) == Val(g, acc) + Val(g, w) * Val(g, x);
    ExtendsTrans(g, g1, g2);
    NodeIsExtends(g1, g2, |g|, Op.Mul, [w, x]);
    (g2, |g1|)
  }

  /** The inner product of the entries splits off its first pair, and the
      rest reads the same in an extended arena. */
  lemma InnerStep(g: Arena, h: Arena, ws: seq<nat>, xs: seq<nat>)
    requires Extends(g, h) && AllScalar(g, ws) && AllScalar(g, xs) && ws != [] && xs != []
    ensures AllScalar(h, ws[1..]) && AllScalar(h, xs[1..])
    ensures Inner(Vals(g, ws), Vals(g, xs)) == Val(g, ws[0]) * Val(g, xs[0]) + Inner(Vals(h, ws[1..]), Vals(h, xs[1..]))
  {
    ValsTail(g, ws);
    ValsTail(g, xs);
    ExtendsScalars(g, h, ws[1..]);
    ExtendsScalars(g, h, xs[1..]);
  }

  /** The running sum `acc + w0*x0 + w1*x1 + ...`: one `mul` then one `add`
      per pair, left to right, stopping at the shorter list. */
  function SumProducts(g: Arena, acc: nat, ws: seq<nat>, xs: seq<nat>): (r: (Arena, nat))
    requires WellFormed(g) && ScalarAt(g, acc) && AllScalar(g, ws) && AllScalar(g, xs)
    ensures WellFormed(r.0) && Extends(g, r.0) && ScalarAt(r.0, r.1)
    ensures Val(r.0, r.1) == Val(g, acc) + Inner(Vals(g, ws), Vals(g, xs))
    decreases |ws|
  {
    if ws == [] || xs == [] then (g, acc)
    else
      var (g2, a) := MulAdd(g, acc, ws[0], xs[0]);
      InnerStep(g, g2, ws, xs);
      var r := SumProducts(g2, a, ws[1..], xs[1..]);
      ExtendsTrans(g, g2, r.0);
      r
  }

  /** Per pair, a product node and then a sum node are appended from the
      arena's end, and the last sum (the start itself when there are no
      pairs) is the result. */
  lemma {:induction false} SumProductsShape(g: Arena, acc: nat, ws: seq<nat>, xs: seq<nat>, h: Arena, s: nat)
    requires WellFormed(g) && ScalarAt(g, acc) && AllScalar(g, ws) && AllScalar(g, xs)
    requires (h, s) == SumProducts(g, acc, ws, xs)
    ensures |h| == |g| + 2 * Pairs(ws, xs) && s == ChainEnd(acc, |g|, 2 * Pairs(ws, xs))
    ensures ProductChain(h, |g|, acc, ws, xs)
    decreases |ws|
  {
    if ws != [] && xs != [] {
      SumProductsStep(g, acc, ws, xs, h, s);
      var (g2, a) := MulAdd(g, acc, ws[0], xs[0]);
      SumProductsShape(g2, a, ws[1..], xs[1..], h, s);
      ProductChainCons(g2, h, |g|, acc, ws, xs, a, |g2|);
    }
  }

  /** The first pair's nodes, and the rest of the sum built after them. */
  lemma SumProductsStep(g: Arena, acc: nat, ws: seq<nat>, xs: seq<nat>, h: Arena, s: nat)
    requires WellFormed(g) && ScalarAt(g, acc) && AllScalar(g, ws) && AllScalar(g, xs) && ws != [] && xs != []
    requires (h, s) == SumProducts(g, acc, ws, xs)
    ensures var (g2, a) := MulAdd(g, acc, ws[0], xs[0]);
            && WellFormed(g2) && ScalarAt(g2, a) && AllScalar(g2, ws[1..]) && AllScalar(g2, xs[1..])
            && (h, s) == SumProducts(g2, a, ws[1..], xs[1..])
            && |g2| == |g| + 2 && a == |g| + 1
            && NodeIs(g2, |g|, Op.Mul, [ws[0], xs[0]]) && NodeIs(g2, |g| + 1, Op.Add, [acc, |g|])
  {
    var (g2, a) := MulAdd(g, acc, ws[0], xs[0]);
    InnerStep(g, g2, ws, xs);
  }

  /** The first pair's two nodes followed by the chain of the other pairs
      form the chain of all pairs. */
  lemma ProductChainCons(g2: Arena, h: Arena, base: nat, acc: nat, ws: seq<nat>, xs: seq<nat>, a: nat, b: nat)
    requires ws != [] && xs != [] && Extends(g2, h) && a == base + 1 && b == base + 2
    requires NodeIs(g2, base, Op.Mul, [ws[0], xs[0]]) && NodeIs(g2, base + 1, Op.Add, [acc, base])
    requires ProductChain(h, b, a, ws[1..], xs[1..])
    ensures ProductChain(h, base, acc, ws, xs)
    ensures ChainEnd(a, b, 2 * Pairs(ws[1..], xs[1..])) == ChainEnd(acc, base, 2 * Pairs(ws, xs))
    ensures b + 2 * Pairs(ws[1..], xs[1..]) == base + 2 * Pairs(ws, xs)
  {
    NodeIsExtends(g2, h, base, Op.Mul, [ws[0], xs[0]]);
    NodeIsExtends(g2, h, base + 1, Op.Add, [acc, base]);
    forall k | 0 <= k < Pairs(ws, xs)
      ensures NodeIs(h, base + 2 * k, Op.Mul, [ws[k], xs[k]])
      ensures NodeIs(h, base + 2 * k + 1, Op.Add, [ChainEnd(acc, base, 2 * k), base + 2 * k])
    {
      if k > 0 {
        assert ws[1..][k - 1] == ws[k] && xs[1..][k - 1] == xs[k];
        assert ChainEnd(base + 1, base + 2, 2 * (k - 1)) == ChainEnd(acc, base, 2 * k);
      }
    }
  }

  /** `Neuron::call`: bias + sum of weight * input, then the activation; for
      softmax and none the sum itself is the output. */
  function NeuronCall(g: Arena, num: Numerics, n: Neuron, x: seq<nat>, act: Activation): (r: (Arena, nat))
    requires WellFormed(g) && NeuronReady(g, n) && AllScalar(g, x)
    ensures WellFormed(r.0) && Extends(g, r.0) && ScalarAt(r.0, r.1)
    ensures Val(r.0, r.1) == Activate(act, num, Pre(g, n, Vals(g, x)))
  {
    var (g1, s) := SumProducts(g, n.bias, n.weights, x);
    var r := Activated(g1, num, s, act);
    ExtendsTrans(g, g1, r.0);
    r
  }

  /** A neuron's graph: the chain of products and sums from the bias, then
      one `relu` or `tanh` node over the last sum when the activation has
      one; otherwise that last sum is the output. */
  lemma NeuronShape(g: Arena, num: Numerics, n: Neuron, x: seq<nat>, act: Activation, h: Arena, y: nat)
    requires WellFormed(g) && NeuronReady(g, n) && AllScalar(g, x)
    requires (h, y) == NeuronCall(g, num, n, x, act)
    ensures ProductChain(h, |g|, n.bias, n.weights, x)
    ensures var k := 2 * Pairs(n.weights, x);
            if act.ReLU? || act.Tanh? then
              |h| == |g| + k + 1 && y == |g| + k
              && NodeIs(h, y, if act.ReLU? then Op.ReLU else Op.Tanh, [ChainEnd(n.bias, |g|, k)])
            else |h| == |g| + k && y == ChainEnd(n.bias, |g|, k)
  {
    var (g1, s) := SumProducts(g, n.bias, n.weights, x);
    SumProductsShape(g, n.bias, n.weights, x, g1, s);
    assert (h, y) == Activated(g1, num, s, act);
    ProductChainExtends(g1, h, |g|, n.bias, n.weights, x);
  }

  lemma ProductChainExtends(g: Arena, h: Arena, base: nat, acc: nat, ws: seq<nat>, xs: seq<nat>)
    requires Extends(g, h) && ProductChain(g, base, acc, ws, xs)
    ensures ProductChain(h, base, acc, ws, xs)
  {
    forall k | 0 <= k < Pairs(ws, xs)
      ensures NodeIs(h, base + 2 * k, Op.Mul, [ws[k], xs[k]])
      ensures NodeIs(h, base + 2 * k + 1, Op.Add, [ChainEnd(acc, base, 2 * k), base + 2 * k])
    {
      NodeIsExtends(g, h, base + 2 * k, Op.Mul, [ws[k], xs[k]]);
      NodeIsExtends(g, h, base + 2 * k + 1, Op.Add, [ChainEnd(acc, base, 2 * k), base + 2 * k]);
    }
  }

  /** The activation node of a neuron, if its activation has one. */
  function Activated(g: Arena, num: Numerics, s: nat, act: Activation): (r: (Arena, nat))
    requires WellFormed(g) && ScalarAt(g, s)
    ensures WellFormed(r.0) && Extends(g, r.0) && ScalarAt(r.0, r.1)
    ensures Val(r.0, r.1) == Activate(act, num, Val(g, s))
    ensures act.ReLU? ==> r.1 == |g| && Appended(g, r.0, [s], Op.ReLU)
    ensures act.Tanh? ==> r.1 == |g| && Appended(g, r.0, [s], Op.Tanh)
    ensures act.Softmax? || act.None? ==> r == (g, s)
  {
    match act
    case ReLU =>
      var g1 := ReluOp(g, s);
      AppendedExtends(g, g1, [s], Op.ReLU);
      (g1, |g|)
    case Tanh =>
      var g1 := TanhOp(g, num, s);
      AppendedExtends(g, g1, [s], Op.Tanh);
      (g1, |g|)
    case Softmax => (g, s)
    case None => (g, s)
  }

  /** After the first neuron's nodes are appended, the other neurons and the
      inputs read as before. */
  lemma NeuronsExtend(g: Arena, h: Arena, num: Numerics, ns: seq<Neuron>, x: seq<nat>, act: Activation)
    requires Extends(g, h) && AllScalar(g, x) && ns != []
    requires forall i :: 0 <= i < |ns| ==> NeuronReady(g, ns[i])
    ensures AllScalar(h, x) && forall i :: 0 <= i < |ns| - 1 ==> NeuronReady(h, ns[1..][i])
    ensures forall i :: 0 <= i < |ns| - 1 ==>
              Activate(act, num, Pre(h, ns[1..][i], Vals(h, x))) == Activate(act, num, Pre(g, ns[i + 1], Vals(g, x)))
  {
    ExtendsScalars(g, h, x);
    forall i | 0 <= i < |ns| - 1
      ensures NeuronReady(h, ns[1..][i]) && Pre(h, ns[1..][i], Vals(h, x)) == Pre(g, ns[i + 1], Vals(g, x))
    {
      NeuronReadyExtends(g, h, ns[i + 1]);
    }
  }

  /** The first output followed by the others' outputs. */
  lemma NeuronsJoin(g: Arena, g1: Arena, g2: Arena, num: Numerics, ns: seq<Neuron>, x: seq<nat>, act: Activation,
                    y: nat, ys: seq<nat>)
    requires Extends(g1, g2) && AllScalar(g, x) && ns != []
    requires forall i :: 0 <= i < |ns| ==> NeuronReady(g, ns[i])
    requires ScalarAt(g1, y) && Val(g1, y) == Activate(act, num, Pre(g, ns[0], Vals(g, x)))
    requires AllScalar(g2, ys) && |ys| == |ns| - 1
    requires forall i :: 0 <= i < |ns| - 1 ==> Val(g2, ys[i]) == Activate(act, num, Pre(g, ns[i + 1], Vals(g, x)))
    ensures AllScalar(g2, [y] + ys)
    ensures forall i :: 0 <= i < |ns| ==> Val(g2, ([y] + ys)[i]) == Activate(act, num, Pre(g, ns[i], Vals(g, x)))
  {
    assert g2[y] == g1[y];
    forall i | 0 <= i < |ns| ensures Val(g2, ([y] + ys)[i]) == Activate(act, num, Pre(g, ns[i], Vals(g, x))) {
      if i > 0 {
        assert ([y] + ys)[i] == ys[i - 1];
      }
    }
  }

  /** Every neuron of `ns` called on the same inputs, in order. */
  function CallNeurons(g: Arena, num: Numerics, ns: seq<Neuron>, x: seq<nat>, act: Activation): (r: (Arena, seq<nat>))
    requires WellFormed(g) && AllScalar(g, x)
    requires forall i :: 0 <= i < |ns| ==> NeuronReady(g, ns[i])
    ensures WellFormed(r.0) && Extends(g, r.0) && AllScalar(r.0, r.1) && |r.1| == |ns|
    ensures forall i :: 0 <= i < |ns| ==> Val(r.0, r.1[i]) == Activate(act, num, Pre(g, ns[i], Vals(g, x)))
    decreases |ns|
  {
    if ns == [] then (g, [])
    else
      var (g1, y) := NeuronCall(g, num, ns[0], x, act);
      NeuronsExtend(g, g1, num, ns, x, act);
      var (g2, ys) := CallNeurons(g1, num, ns[1..], x, act);
      ExtendsTrans(g, g1, g2);
      NeuronsJoin(g, g1, g2, num, ns, x, act, y, ys);
      (g2, [y] + ys)
  }

  /** A single scalar `exp` node. */
  function ExpNode(g: Arena, num: Numerics, a: nat): (r: (Arena, nat))
    requires WellFormed(g) && ScalarAt(g, a)
    ensures WellFormed(r.0) && Extends(g, r.0) && ScalarAt(r.0, r.1)
    ensures Val(r.0, r.1) == num.exp(Val(g, a))
    ensures |r.0| == |g| + 1 && r.1 == |g| && NodeIs(r.0, |g|, Op.Exp, [a])
  {
    var g1 := ExpOp(g, num, a);
    AppendedExtends(g, g1, [a], Op.Exp);
    (g1, |g|)
  }

  /** The rest of a list reads the same after nodes are appended. */
  lemma TailExtends(g: Arena, h: Arena, s: seq<nat>)
    requires Extends(g, h) && AllScalar(g, s) && s != []
    ensures AllScalar(h, s[1..]) && forall i :: 0 <= i < |s| - 1 ==> Val(h, s[1..][i]) == Val(g, s[i + 1])
  {
    ValsTail(g, s);
    ExtendsScalars(g, h, s[1..]);
  }

  /** One `exp` node per entry, in order. */
  function Exps(g: Arena, num: Numerics, s: seq<nat>): (r: (Arena, seq<nat>))
    requires WellFormed(g) && AllScalar(g, s)
    ensures WellFormed(r.0) && Extends(g, r.0) && AllScalar(r.0, r.1) && |r.1| == |s|
    ensures forall i :: 0 <= i < |s| ==> Val(r.0, r.1[i]) == num.exp(Val(g, s[i]))
    decreases |s|
  {
    if s == [] then (g, [])
    else
      var (g1, y) := ExpNode(g, num, s[0]);
      TailExtends(g, g1, s);
      var (g2, es) := Exps(g1, num, s[1..]);
      ExtendsTrans(g, g1, g2);
      ExpsJoin(g, g1, g2, num, s, y, es);
      (g2, [y] + es)
  }

  /** The `exp` nodes are appended one per entry, in order, from the arena's
      end. */
  lemma {:induction false} ExpsShape(g: Arena, num: Numerics, s: seq<nat>, h: Arena, es: seq<nat>)
    requires WellFormed(g) && AllScalar(g, s) && (h, es) == Exps(g, num, s)
    ensures |h| == |g| + |s| && Consecutive(es, |g|, |s|) && ExpRow(h, |g|, s)
    decreases |s|
  {
    if s != [] {
      ExpsStep(g, num, s, h, es);
      var (g1, y) := ExpNode(g, num, s[0]);
      var (h1, es1) := Exps(g1, num, s[1..]);
      ExpsShape(g1, num, s[1..], h1, es1);
      ExpRowCons(g1, h, |g|, s, es1, |g1|);
    }
  }

  /** The first entry's node, and the rest built after it. */
  lemma ExpsStep(g: Arena, num: Numerics, s: seq<nat>, h: Arena, es: seq<nat>)
    requires WellFormed(g) && AllScalar(g, s) && s != [] && (h, es) == Exps(g, num, s)
    ensures var (g1, y) := ExpNode(g, num, s[0]);
            && WellFormed(g1) && AllScalar(g1, s[1..]) && |g1| == |g| + 1 && y == |g|
            && NodeIs(g1, |g|, Op.Exp, [s[0]]) && Extends(g1, h)
            && h == Exps(g1, num, s[1..]).0 && es == [y] + Exps(g1, num, s[1..]).1
  {
    var (g1, y) := ExpNode(g, num, s[0]);
    TailExtends(g, g1, s);
  }

  lemma ExpRowCons(g1: Arena, h: Arena, base: nat, s: seq<nat>, es: seq<nat>, b: nat)
    requires s != [] && b == base + 1 && Extends(g1, h) && NodeIs(g1, base, Op.Exp, [s[0]])
    requires ExpRow(h, b, s[1..]) && Consecutive(es, b, |s[1..]|)
    ensures ExpRow(h, base, s) && Consecutive([base] + es, base, |s|) && b + |s[1..]| == base + |s|
  {
    NodeIsExtends(g1, h, base, Op.Exp, [s[0]]);
    forall i | 0 < i < |s| ensures NodeIs(h, base + i, Op.Exp, [s[i]]) {
      assert s[1..][i - 1] == s[i];
    }
  }

  lemma ExpsJoin(g: Arena, g1: Arena, g2: Arena, num: Numerics, s: seq<nat>, y: nat, es: seq<nat>)
    requires Extends(g1, g2) && AllScalar(g, s) && s != []
    requires ScalarAt(g1, y) && Val(g1, y) == num.exp(Val(g, s[0]))
    requires AllScalar(g2, es) && |es| == |s| - 1
    requires forall i :: 0 <= i < |s| - 1 ==> Val(g2, es[i]) == num.exp(Val(g, s[i + 1]))
    ensures AllScalar(g2, [y] + es)
    ensures forall i :: 0 <= i < |s| ==> Val(g2, ([y] + es)[i]) == num.exp(Val(g, s[i]))
  {
    assert g2[y] == g1[y];
  }

  /** `acc + s0 + s1 + ...` as a chain of `add` nodes, left to right. */
  function SumChain(g: Arena, acc: nat, s: seq<nat>): (r: (Arena, nat))
    requires WellFormed(g) && ScalarAt(g, acc) && AllScalar(g, s)
    ensures WellFormed(r.0) && Extends(g, r.0) && ScalarAt(r.0, r.1)
    ensures Val(r.0, r.1) == Val(g, acc) + Sum(Vals(g, s))
    decreases |s|
  {
    if s == [] then (g, acc)
    else
      var g1 := AddOp(g, acc, s[0]);
      AppendedExtends(g, g1, [acc, s[0]], Op.Add);
      assert ScalarAt(g1, |g|) && Val(g1, |g|) == Val(g, acc) + Val(g, s[0]);
      ValsTail(g, s);
      ExtendsScalars(g, g1, s[1..]);
      var r := SumChain(g1, |g|, s[1..]);
      assert Sum(Vals(g, s)) == Val(g, s[0]) + Sum(Vals(g, s)[1..]);
      ExtendsTrans(g, g1, r.0);
      r
  }

  /** The `add` nodes are appended one per entry, each over the previous sum,
      and the last of them (the start itself when there are none) is the
      result. */
  lemma {:induction false} SumChainShape(g: Arena, acc: nat, s: seq<nat>, h: Arena, y: nat)
    requires WellFormed(g) && ScalarAt(g, acc) && AllScalar(g, s) && (h, y) == SumChain(g, acc, s)
    ensures |h| == |g| + |s| && y == ChainEnd(acc, |g|, |s|) && AddChain(h, |g|, acc, s)
    decreases |s|
  {
    if s != [] {
      SumChainStep(g, acc, s, h, y);
      var g1 := AddOp(g, acc, s[0]);
      SumChainShape(g1, |g|, s[1..], h, y);
      AddChainCons(g1, h, |g|, acc, s, |g1|);
    }
  }

  /** The first sum node, and the rest of the chain built after it. */
  lemma SumChainStep(g: Arena, acc: nat, s: seq<nat>, h: Arena, y: nat)
    requires WellFormed(g) && ScalarAt(g, acc) && AllScalar(g, s) && s != [] && (h, y) == SumChain(g, acc, s)
    ensures var g1 := AddOp(g, acc, s[0]);
            && WellFormed(g1) && ScalarAt(g1, |g|) && AllScalar(g1, s[1..]) && |g1| == |g| + 1
            && NodeIs(g1, |g|, Op.Add, [acc, s[0]]) && (h, y) == SumChain(g1, |g|, s[1..]) && Extends(g1, h)
  {
    var g1 := AddOp(g, acc, s[0]);
    AppendedExtends(g, g1, [acc, s[0]], Op.Add);
    assert ScalarAt(g1, |g|);
    ValsTail(g, s);
    ExtendsScalars(g, g1, s[1..]);
  }

  lemma AddChainCons(g1: Arena, h: Arena, base: nat, acc: nat, s: seq<nat>, b: nat)
    requires s != [] && b == base + 1 && Extends(g1, h) && NodeIs(g1, base, Op.Add, [acc, s[0]])
    requires AddChain(h, b, base, s[1..])
    ensures AddChain(h, base, acc, s)
    ensures ChainEnd(base, b, |s[1..]|) == ChainEnd(acc, base, |s|) && b + |s[1..]| == base + |s|
  {
    NodeIsExtends(g1, h, base, Op.Add, [acc, s[0]]);
    forall k | 0 < k < |s| ensures NodeIs(h, base + k, Op.Add, [ChainEnd(acc, base, k), s[k]]) {
      assert s[1..][k - 1] == s[k];
      assert ChainEnd(base, base + 1, k - 1) == ChainEnd(acc, base, k);
    }
  }

  /** A single scalar `div` node. */
  function DivNode(g: Arena, a: nat, d: nat): (r: (Arena, nat))
    requires WellFormed(g) && ScalarAt(g, a) && ScalarAt(g, d) && Val(g, d) != 0.0
    ensures WellFormed(r.0) && Extends(g, r.0) && ScalarAt(r.0, r.1)
    ensures Val(r.0, r.1) == Val(g, a) / Val(g, d)
    ensures |r.0| == |g| + 1 && r.1 == |g| && NodeIs(r.0, |g|, Op.Div, [a, d])
  {
    assert Nonzero(g[d].value);
    var g1 := DivOp(g, a, d);
    AppendedExtends(g, g1, [a, d], Op.Div);
    (g1, |g|)
  }

  /** One `div` node per entry, all sharing the divisor `d`. */
  function Divs(g: Arena, s: seq<nat>, d: nat): (r: (Arena, seq<nat>))
    requires WellFormed(g) && AllScalar(g, s) && ScalarAt(g, d) && Val(g, d) != 0.0
    ensures WellFormed(r.0) && Extends(g, r.0) && AllScalar(r.0, r.1) && |r.1| == |s|
    ensures forall i :: 0 <= i < |s| ==> Val(r.0, r.1[i]) == Val(g, s[i]) / Val(g, d)
    decreases |s|
  {
    if s == [] then (g, [])
    else
      var (g1, y) := DivNode(g, s[0], d);
      TailExtends(g, g1, s);
      assert g1[d] == g[d];
      var (g2, qs) := Divs(g1, s[1..], d);
      ExtendsTrans(g, g1, g2);
      DivsJoin(g, g1, g2, s, d, y, qs);
      (g2, [y] + qs)
  }

  /** The `div` nodes are appended one per entry, in order, from the arena's
      end, and every one divides by the same node `d`. */
  lemma {:induction false} DivsShape(g: Arena, s: seq<nat>, d: nat, h: Arena, qs: seq<nat>)
    requires WellFormed(g) && AllScalar(g, s) && ScalarAt(g, d) && Val(g, d) != 0.0
    requires (h, qs) == Divs(g, s, d)
    ensures |h| == |g| + |s| && Consecutive(qs, |g|, |s|) && DivRow(h, |g|, s, d)
    decreases |s|
  {
    if s != [] {
      DivsStep(g, s, d, h, qs);
      var (g1, y) := DivNode(g, s[0], d);
      var (h1, qs1) := Divs(g1, s[1..], d);
      DivsShape(g1, s[1..], d, h1, qs1);
      DivRowCons(g1, h, |g|, s, d, qs1, |g1|);
    }
  }

  /** The first quotient's node, and the rest built after it. */
  lemma DivsStep(g: Arena, s: seq<nat>, d: nat, h: Arena, qs: seq<nat>)
    requires WellFormed(g) && AllScalar(g, s) && ScalarAt(g, d) && Val(g, d) != 0.0 && s != []
    requires (h, qs) == Divs(g, s, d)
    ensures var (g1, y) := DivNode(g, s[0], d);
            && WellFormed(g1) && AllScalar(g1, s[1..]) && ScalarAt(g1, d) && Val(g1, d) != 0.0
            && |g1| == |g| + 1 && y == |g| && NodeIs(g1, |g|, Op.Div, [s[0], d]) && Extends(g1, h)
            && h == Divs(g1, s[1..], d).0 && qs == [y] + Divs(g1, s[1..], d).1
  {
    var (g1, y) := DivNode(g, s[0], d);
    TailExtends(g, g1, s);
    assert g1[d] == g[d];
  }

  lemma DivRowCons(g1: Arena, h: Arena, base: nat, s: seq<nat>, d: nat, qs: seq<nat>, b: nat)
    requires s != [] && b == base + 1 && Extends(g1, h) && NodeIs(g1, base, Op.Div, [s[0], d])
    requires DivRow(h, b, s[1..], d) && Consecutive(qs, b, |s[1..]|)
    ensures DivRow(h, base, s, d) && Consecutive([base] + qs, base, |s|) && b + |s[1..]| == base + |s|
  {
    NodeIsExtends(g1, h, base, Op.Div, [s[0], d]);
    forall i | 0 < i < |s| ensures NodeIs(h, base + i, Op.Div, [s[i], d]) {
      assert s[1..][i - 1] == s[i];
    }
  }

  lemma DivsJoin(g: Arena, g1: Arena, g2: Arena, s: seq<nat>, d: nat, y: nat, qs: seq<nat>)
    requires Extends(g1, g2) && AllScalar(g, s) && s != [] && ScalarAt(g, d) && Val(g, d) != 0.0
    requires ScalarAt(g1, y) && Val(g1, y) == Val(g, s[0]) / Val(g, d)
    requires AllScalar(g2, qs) && |qs| == |s| - 1
    requires forall i :: 0 <= i < |s| - 1 ==> Val(g2, qs[i]) == Val(g, s[i + 1]) / Val(g, d)
    ensures AllScalar(g2, [y] + qs)
    ensures forall i :: 0 <= i < |s| ==> Val(g2, ([y] + qs)[i]) == Val(g, s[i]) / Val(g, d)
  {
    assert g2[y] == g1[y];
  }

  /** The sum of nodes each holding exp of the matching real is `SumExp`. */
  lemma {:induction false} SumOfExps(h: Arena, num: Numerics, e: seq<nat>, ys: seq<real>)
    requires ExpPositive(num) && AllScalar(h, e) && |e| == |ys|
    requires forall i :: 0 <= i < |e| ==> Val(h, e[i]) == num.exp(ys[i])
    ensures Sum(Vals(h, e)) == SumExp(num, ys)
    decreases |e|
  {
    if e != [] {
      ValsTail(h, e);
      SumOfExps(h, num, e[1..], ys[1..]);
    }
  }

  /** `Layer::softmax_layer`: exponentiate every logit, add the exponentials
      into one sum node starting from the first, and divide each exponential
      by that shared sum. An empty list of logits has no first element. */
  function SoftmaxLayer(g: Arena, num: Numerics, logits: seq<nat>): (r: (Arena, seq<nat>))
    requires WellFormed(g) && AllScalar(g, logits) && |logits| > 0 && ExpPositive(num)
    ensures WellFormed(r.0) && Extends(g, r.0) && AllScalar(r.0, r.1)
    ensures Vals(r.0, r.1) == SoftmaxOf(num, Vals(g, logits))
  {
    var (g1, e) := Exps(g, num, logits);
    var (g2, d) := SumChain(g1, e[0], e[1..]);
    SumIsSumExp(g, g1, g2, num, logits, e, d);
    ExtendsScalars(g1, g2, e);
    var (g3, out) := Divs(g2, e, d);
    ExtendsTrans(g, g1, g2);
    ExtendsTrans(g, g2, g3);
    SoftmaxJoin(g, g1, g2, g3, num, logits, e, d, out);
    (g3, out)
  }

  /** The shared sum node holds the sum of the exponentials. */
  lemma SumIsSumExp(g: Arena, g1: Arena, g2: Arena, num: Numerics, logits: seq<nat>, e: seq<nat>, d: nat)
    requires ExpPositive(num) && AllScalar(g, logits) && AllScalar(g1, e) && |e| == |logits| > 0
    requires forall i :: 0 <= i < |e| ==> Val(g1, e[i]) == num.exp(Val(g, logits[i]))
    requires ScalarAt(g2, d) && Val(g2, d) == Val(g1, e[0]) + Sum(Vals(g1, e[1..]))
    ensures Val(g2, d) == SumExp(num, Vals(g, logits)) > 0.0
  {
    ValsTail(g1, e);
    SumOfExps(g1, num, e, Vals(g, logits));
  }

  lemma ExpRowExtends(g: Arena, h: Arena, base: nat, s: seq<nat>)
    requires Extends(g, h) && ExpRow(g, base, s)
    ensures ExpRow(h, base, s)
  {
    forall i | 0 <= i < |s| ensures NodeIs(h, base + i, Op.Exp, [s[i]]) {
      NodeIsExtends(g, h, base + i, Op.Exp, [s[i]]);
    }
  }

  lemma AddChainExtends(g: Arena, h: Arena, base: nat, acc: nat, s: seq<nat>)
    requires Extends(g, h) && AddChain(g, base, acc, s)
    ensures AddChain(h, base, acc, s)
  {
    forall k | 0 <= k < |s| ensures NodeIs(h, base + k, Op.Add, [ChainEnd(acc, base, k), s[k]]) {
      NodeIsExtends(g, h, base + k, Op.Add, [ChainEnd(acc, base, k), s[k]]);
    }
  }

  /** The softmax graph of `n` logits, from the arena's end: the `exp`
      nodes `e`, one per logit; then `n - 1` `add` nodes summing them from
      the first; then one `div` node per exponential, all over that last sum
      (the first exponential itself when there is one logit), and these
      quotients are the outputs. */
  lemma SoftmaxShape(g: Arena, num: Numerics, logits: seq<nat>, h: Arena, outs: seq<nat>)
    requires WellFormed(g) && AllScalar(g, logits) && |logits| > 0 && ExpPositive(num)
    requires (h, outs) == SoftmaxLayer(g, num, logits)
    ensures SoftmaxRows(g, logits, h, outs, Exps(g, num, logits).1)
  {
    var (g1, e) := Exps(g, num, logits);
    ExpsShape(g, num, logits, g1, e);
    var (g2, d) := SumChain(g1, e[0], e[1..]);
    SumChainShape(g1, e[0], e[1..], g2, d);
    SumIsSumExp(g, g1, g2, num, logits, e, d);
    ExtendsScalars(g1, g2, e);
    var (g3, out) := Divs(g2, e, d);
    DivsShape(g2, e, d, g3, out);
    ExtendsTrans(g1, g2, g3);
    ExpRowExtends(g1, g3, |g|, logits);
    AddChainExtends(g2, g3, |g1|, e[0], e[1..]);
    assert h == g3 && outs == out;
    SoftmaxRowsAt(g, logits, h, outs, e, |g1|, |g2|, d);
  }

  /** The softmax graph over `n` logits in `h`, with `e` its `exp` nodes and
      `outs` its outputs, all appended after the arena `g`. */
  predicate SoftmaxRows(g: Arena, logits: seq<nat>, h: Arena, outs: seq<nat>, e: seq<nat>) {
    && |logits| > 0
    && |h| == |g| + 3 * |logits| - 1 && Consecutive(outs, |g| + 2 * |logits| - 1, |logits|)
    && Consecutive(e, |g|, |logits|) && ExpRow(h, |g|, logits)
    && AddChain(h, |g| + |logits|, e[0], e[1..])
    && DivRow(h, |g| + 2 * |logits| - 1, e, ChainEnd(e[0], |g| + |logits|, |logits| - 1))
  }

  /** The rows, their starts and the shared sum given as the lengths they
      equal. */
  lemma SoftmaxRowsAt(g: Arena, logits: seq<nat>, h: Arena, outs: seq<nat>, e: seq<nat>, b1: nat, b2: nat, d: nat)
    requires |logits| > 0 && Consecutive(e, |g|, |logits|) && ExpRow(h, |g|, logits)
    requires b1 == |g| + |logits| && b2 == b1 + |logits| - 1 && d == ChainEnd(e[0], b1, |logits| - 1)
    requires |h| == b2 + |logits| && Consecutive(outs, b2, |logits|)
    requires AddChain(h, b1, e[0], e[1..]) && DivRow(h, b2, e, d)
    ensures SoftmaxRows(g, logits, h, outs, e)
  {
  }

  /** A softmax graph's outputs are `div` nodes over one shared divisor,
      each dividing an `exp` node. */
  lemma RowsShared(g: Arena, logits: seq<nat>, h: Arena, outs: seq<nat>, e: seq<nat>)
    requires SoftmaxRows(g, logits, h, outs, e)
    ensures SharedDivisor(h, outs)
  {
    var n := |logits|;
    var d := ChainEnd(e[0], |g| + n, n - 1);
    forall i | 0 <= i < n
      ensures NodeIs(h, outs[i], Op.Div, [e[i], d]) && NodeIs(h, e[i], Op.Exp, [logits[i]])
    {
      assert outs[i] == |g| + 2 * n - 1 + i && e[i] == |g| + i;
    }
  }

  /** A softmax layer's outputs, one per neuron, are `div` nodes over one
      shared divisor, each dividing an `exp` node. */
  lemma LayerSoftmaxShared(g: Arena, num: Numerics, l: Layer, x: seq<nat>, h: Arena, outs: seq<nat>)
    requires WellFormed(g) && LayerReady(g, l) && SoftmaxSafe(num, l) && AllScalar(g, x)
    requires l.activation.Softmax? && (h, outs) == LayerCall(g, num, l, x)
    ensures |outs| == |l.neurons| && SharedDivisor(h, outs)
  {
    var (g1, ys) := CallNeurons(g, num, l.neurons, x, l.activation);
    assert (h, outs) == SoftmaxLayer(g1, num, ys);
    SoftmaxShape(g1, num, ys, h, outs);
    RowsShared(g1, ys, h, outs, Exps(g1, num, ys).1);
  }

  /** Each quotient is the softmax entry of its logit. */
  lemma SoftmaxJoin(g: Arena, g1: Arena, g2: Arena, g3: Arena, num: Numerics, logits: seq<nat>,
                    e: seq<nat>, d: nat, out: seq<nat>)
    requires ExpPositive(num) && AllScalar(g, logits) && |e| == |logits| && Extends(g1, g2)
    requires AllScalar(g1, e) && forall i :: 0 <= i < |e| ==> Val(g1, e[i]) == num.exp(Val(g, logits[i]))
    requires ScalarAt(g2, d) && Val(g2, d) == SumExp(num, Vals(g, logits)) && Val(g2, d) != 0.0
    requires AllScalar(g2, e) && AllScalar(g3, out) && |out| == |e|
    requires forall i :: 0 <= i < |e| ==> Val(g3, out[i]) == Val(g2, e[i]) / Val(g2, d)
    ensures Vals(g3, out) == SoftmaxOf(num, Vals(g, logits))
  {
    forall i | 0 <= i < |e| ensures Vals(g3, out)[i] == SoftmaxOf(num, Vals(g, logits))[i] {
      assert g2[e[i]] == g1[e[i]];
    }
  }

  /** `Layer::call`: every neuron on the same inputs, then the softmax when
      the layer's activation is softmax; the values are the layer's reference
      evaluation on the inputs' values. */
  function LayerCall(g: Arena, num: Numerics, l: Layer, x: seq<nat>): (r: (Arena, seq<nat>))
    requires WellFormed(g) && LayerReady(g, l) && SoftmaxSafe(num, l) && AllScalar(g, x)
    ensures WellFormed(r.0) && Extends(g, r.0) && AllScalar(r.0, r.1)
    ensures Vals(r.0, r.1) == LayerEval(g, num, l, Vals(g, x))
  {
    var (g1, outs) := CallNeurons(g, num, l.neurons, x, l.activation);
    assert Vals(g1, outs) == Pres(g, num, l, Vals(g, x));
    if l.activation == Softmax then
      var r := SoftmaxLayer(g1, num, outs);
      ExtendsTrans(g, g1, r.0);
      r
    else (g1, outs)
  }

  lemma LayerEvalExtends(g: Arena, h: Arena, num: Numerics, l: Layer, xs: seq<real>)
    requires Extends(g, h) && LayerReady(g, l) && SoftmaxSafe(num, l)
    ensures LayerReady(h, l) && LayerEval(h, num, l, xs) == LayerEval(g, num, l, xs)
  {
    LayerReadyExtends(g, h, l);
    var a, b := Pres(h, num, l, xs), Pres(g, num, l, xs);
    forall i | 0 <= i < |l.neurons| ensures a[i] == b[i] {
      NeuronReadyExtends(g, h, l.neurons[i]);
    }
    assert a == b;
  }

  lemma {:induction false} MLPEvalExtends(g: Arena, h: Arena, num: Numerics, layers: seq<Layer>, xs: seq<real>)
    requires Extends(g, h) && Ready(g, num, layers)
    ensures Ready(h, num, layers) && MLPEval(h, num, layers, xs) == MLPEval(g, num, layers, xs)
    decreases |layers|
  {
    forall i | 0 <= i < |layers| ensures LayerReady(h, layers[i]) {
      LayerReadyExtends(g, h, layers[i]);
    }
    if layers != [] {
      LayerEvalExtends(g, h, num, layers[0], xs);
      MLPEvalExtends(g, h, num, layers[1..], LayerEval(g, num, layers[0], xs));
    }
  }

  /** `MLP::call`: the layers in turn, each on the previous one's outputs. */
  function MLPCall(g: Arena, num: Numerics, m: MLP, x: seq<nat>): (r: (Arena, seq<nat>))
    requires WellFormed(g) && Ready(g, num, m.layers) && AllScalar(g, x)
    ensures WellFormed(r.0) && Extends(g, r.0) && AllScalar(r.0, r.1)
    ensures Vals(r.0, r.1) == MLPEval(g, num, m.layers, Vals(g, x))
    decreases |m.layers|
  {
    if m.layers == [] then (g, x)
    else
      var (g1, y) := LayerCall(g, num, m.layers[0], x);
      MLPEvalExtends(g, g1, num, m.layers[1..], Vals(g, x));
      var r := MLPCall(g1, num, MLP(m.layers[1..]), y);
      MLPEvalExtends(g, g1, num, m.layers[1..], Vals(g1, y));
      ExtendsTrans(g, g1, r.0);
      r
  }

  /** A network whose last layer is a softmax layer outputs a probability
      vector. */
  lemma {:induction false} MLPOutputSumsToOne(g: Arena, num: Numerics, layers: seq<Layer>, xs: seq<real>)
    requires Ready(g, num, layers) && layers != [] && layers[|layers| - 1].activation == Softmax
    ensures Sum(MLPEval(g, num, layers, xs)) == 1.0
    decreases |layers|
  {
    var ys := LayerEval(g, num, layers[0], xs);
    if |layers| == 1 {
      SoftmaxSumsToOne(num, Pres(g, num, layers[0], xs));
      assert MLPEval(g, num, layers[1..], ys) == ys;
    } else {
      MLPOutputSumsToOne(g, num, layers[1..], ys);
    }
  }

  /** `MLP::parameters`, then `zero_grad` on each: exactly the network's
      parameters get zero gradients; nothing else changes. */
  function MLPZeroGrad(g: Arena, m: MLP): (r: Arena)
    requires forall k :: 0 <= k < |MLPParameters(m.layers)| ==> MLPParameters(m.layers)[k] < |g|
    ensures |r| == |g| && SameFrame(g, r)
    ensures forall x :: x in MLPParameters(m.layers) ==> r[x].grad == ZerosLike(g[x].value)
    ensures forall x :: 0 <= x < |g| && x !in MLPParameters(m.layers) ==> r[x] == g[x]
    ensures WellFormed(g) ==> WellFormed(r)
  {
    ZeroGrads(g, MLPParameters(m.layers))
  }
}
