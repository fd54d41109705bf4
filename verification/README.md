# rust-autograd, modelled in Dafny

This project models the core of `rust-autograd`, a small reverse-mode
automatic-differentiation library with a multilayer perceptron on top. It
covers the following parts:

- **The computation graph** (`src/autograd.rs`).
  - Every `Autograd` handle is a node holding a value matrix, a gradient
    matrix, its children, the operation that produced it and a name.
  - The element-wise and matrix operations append a new node.
  - `build_topo`/`get_topo` order the nodes reachable from a root,
    children first.
  - `backward` walks that order in reverse and adds each node's local
    derivatives into its children's gradients.
  - The accessors `zero_grad`, `set_value`, `set_grad` and `set_name`
    rewrite one node.
- **The network** (`src/nn.rs`): neurons, layers (ReLU, tanh, identity or
  softmax) and the MLP. This covers construction, parameter lists, forward
  calls and `zero_grad`.
- **The optimizer** (`src/optimizer/`): `SGD::step` and the default
  `Optimizer::zero_grad`.
- **The losses** (`Loss`, with the MSE gradient in `MseGradient`):
  - MSE against a one-hot target (`src/loss/mse.rs`);
  - the negative log-likelihood of the target prediction, in both
    `src/loss/softmax_cross_entropy.rs` and `src/helpers/cross_entropy.rs`.
- **The Graphviz visualiser** (`src/helpers/visualization.rs`). It has the
  builder options and `draw`, with the DOT text abstracted into a list of
  line records.

## How the model is built

- **Arena.** The graph is a sequence of nodes (`Autograd.Arena`). A handle
  is an index into it. Shared `Rc` ownership becomes index sharing, so
  `a.add(&a)` is the node `Add` with children `[a, a]`. Every node's
  children precede it (`Acyclic`), which is what construction by the
  operations guarantees.
  - The mutations through a handle (`set_grad`, `backward`, `step`) become
    functions from an arena to a new arena.
  - Every other handle observes the result because it shares the index.
- **Matrices.** `Matrix.Mat` is a real matrix with explicit rows and
  columns. `MatMul` is `ndarray`'s `dot`. The other arithmetic is
  element-wise.
- **Transcendental functions.** The floating-point library functions
  (`exp`, `ln`, `tanh`, `powf`) and the `f64::EPSILON` floor of `log` are
  the fields of a `Numerics` record passed as a parameter. They stay
  uninterpreted. A proof that needs a fact about one of them (say
  `pow(x, 2) == x * x`, or `exp > 0`) takes it as a precondition.
- **Random draws.** The random initial weights are the caller's draws:
  `NewNeuron`, `NewLayer` and `NewMLP` take them as a sequence (or a nested
  sequence) of reals.
- **The backward pass.** `backward` is `Order` (the reversed topological
  order) run node by node. `Step` pushes each child's `Contrib` in turn,
  reading the node's gradient as it stands at that moment.
  - `Gather` and `Accum` are independent reference definitions: they sum,
    for one node `x`, the contributions every visited parent makes to it.
  - `RunAccumulates` and `BackwardAccumulates` prove that the walk computes
    exactly that sum.
  - They also prove that each parent's contribution is computed from its
    final gradient, since every parent is visited before its children.
  - `Rules` states the derivative of each operation in closed form, for one
    operation over leaves, and states the repository's unit tests of
    `backward` as lemmas about it.
  - `MseGradient` follows the pass down the graph `MSE::forward` builds.
    Every node on the way has one parent, so each receives exactly one
    contribution: from the loss to the running sums, then to the square,
    the difference and the prediction.

## Model

| member | source | states |
|---|---|---|
| Autograd.New | src/autograd.rs:37-48 | a new leaf: the given value, a zero gradient of the value's shape, no children, op `None`, empty name; the arena is otherwise unchanged |
| Autograd.AddOp | src/autograd.rs:50-60 | appends a node with children `[a, b]` and op `Add`, whose entries are the element-wise sums; nothing else changes |
| Autograd.SubOp | src/autograd.rs:62-72 | appends a node with children `[a, b]` and op `Sub`, whose entries are the element-wise differences |
| Autograd.MulOp | src/autograd.rs:74-84 | appends a node with children `[a, b]` and op `Mul`, whose value is the matrix product (rows of `a`, columns of `b`, each entry the dot product) |
| Autograd.DivOp | src/autograd.rs:86-96 | appends a node with children `[a, b]` and op `Div`, whose entries are the element-wise quotients |
| Autograd.PowOp | src/autograd.rs:98-112 | appends a constant leaf holding the exponent, then the `Pow` node with children `[a, exponent leaf]`; each entry is `pow(x, p)` |
| Autograd.LogOp | src/autograd.rs:114-123 | appends a `Log` node whose entries are `ln(max(x, EPSILON))` |
| Autograd.NegOp | src/autograd.rs:125-134 | appends a `Neg` node whose entries are the negated entries |
| Autograd.ExpOp | src/autograd.rs:136-145 | appends an `Exp` node whose entries are `exp(x)` |
| Autograd.TanhOp | src/autograd.rs:147-156 | appends a `Tanh` node whose entries are `tanh(x)` |
| Autograd.ReluOp | src/autograd.rs:158-167 | appends a `ReLU` node; an entry is positive exactly when the input entry is, and then equals it, otherwise it is 0 |
| Autograd.ZeroGrad | src/autograd.rs:276-282 | the node's gradient becomes zeros of its value's shape; every other node and every other field is unchanged |
| Autograd.SetValue | src/autograd.rs:292-294 | only the node's value changes |
| Autograd.SetGrad | src/autograd.rs:296-298 | only the node's gradient changes, and the arena stays well formed when the new gradient has the value's shape |
| Autograd.SetName | src/autograd.rs:300-302 | only the node's name changes |
| Autograd.ZeroGrads | src/optimizer/mod.rs:11-15 | every listed node's gradient is zeros of its value's shape, and every unlisted node keeps its gradient; values, children and ops are unchanged |
| Topo.GetTopo | src/autograd.rs:316-321 | the order has no duplicates, puts every node after its children, holds exactly the nodes reachable from the root, and ends with the root |
| Topo.VisitSpec | src/autograd.rs:169-182 | the depth-first search extends the list, keeps it duplicate-free and children-first, adds exactly the newly reachable nodes, marks them visited, and ends with the start node if it was unvisited |
| Topo.VisitKidsSpec | src/autograd.rs:177-179 | visiting the children in order adds exactly what they reach, and not the parent itself |
| Topo.DescendantsFirst | src/autograd.rs:316-321 | every node reachable from an entry of the order, other than the entry itself, appears earlier in the order |
| BackwardPass.PowSlope | src/autograd.rs:226-234 | the local derivative of `pow` is `p * pow(x, p - 1)` entry by entry |
| BackwardPass.TanhSlope | src/autograd.rs:254-261 | the local derivative of `tanh`, from its output `y`, is `1 - y*y` entry by entry |
| BackwardPass.ReluMask | src/autograd.rs:262-269 | the `ReLU` mask is 1 where the output is positive and 0 elsewhere |
| BackwardPass.Step | src/autograd.rs:189-196 | one node's pass keeps the arena well formed and changes only gradients; a leaf (no backward function) changes nothing |
| BackwardPass.Order | src/autograd.rs:185-189 | the visiting order starts at the root, has no duplicates and holds exactly the nodes reachable from it |
| BackwardPass.Backward | src/autograd.rs:184-273 | the pass keeps the arena well formed and changes only gradients |
| BackwardPass.PushGathers | src/autograd.rs:198-270 | pushing one node's contributions adds to `x` exactly the contributions aimed at `x`; a child listed twice receives both |
| BackwardPass.RunUntouched | src/autograd.rs:189-273 | a node that no visited node has as a child keeps its gradient |
| BackwardPass.RunAccumulates | src/autograd.rs:189-273 | when parents are visited before children, every node's final gradient is its initial gradient plus the contributions of the visited nodes, each computed from the final arena |
| BackwardPass.FirstKeepsGrad | src/autograd.rs:189-190 | the first node visited, the root, keeps its seeded gradient |
| BackwardPass.OrderParentsFirst | src/autograd.rs:185-189 | the reversed topological order visits every parent before its children |
| Gradients.BackwardAccumulates | src/autograd.rs:184-273 | after `backward`, each node's gradient is its old gradient plus the contributions, computed from final gradients, of the reachable nodes that have it as a child |
| Gradients.BackwardKeeps | src/autograd.rs:184-273 | `backward` leaves the root and every node that is not reachable from it exactly as they were |
| Gradients.SoleParent | src/autograd.rs:198-270 | a node with a single reachable parent receives exactly that parent's contributions |
| Gradients.SoleUnaryParent | src/autograd.rs:235-269 | a node whose only reachable parent is a one-child operation receives exactly that operation's contribution |
| Gradients.AliasedAddDoubles | src/autograd.rs:199-203 | for `a.add(&a)` with seed `dy`, `a` receives `dy` twice |
| Rules.OneOpGrads | src/autograd.rs:184-274 | over a graph of one operation on leaves, each node's final gradient is its old gradient plus what the root passes it |
| Rules.BinaryGrads | src/autograd.rs:198-225 | each of two distinct operands gains the root's contribution at its own position, once |
| Rules.AddRule | src/autograd.rs:199-203 | `a + b`: both operands gain `dy` |
| Rules.SubRule | src/autograd.rs:204-208 | `a - b`: `a` gains `dy`, `b` loses `dy` |
| Rules.MulRule | src/autograd.rs:209-216 | `a.dot(b)`: `a` gains `dy * b^T`, `b` gains `a^T * dy` |
| Rules.DivRule | src/autograd.rs:217-225 | `a / b`: `a` gains `dy / b` and `b` gains `-(a / b^2) * dy`, entry by entry |
| Rules.PowRule | src/autograd.rs:226-234 | `x^p`: `x` gains `dy * p * x^(p-1)` entry by entry, and the exponent leaf is untouched |
| Rules.LogRule | src/autograd.rs:235-241 | `log(x)`: `x` gains `dy / x`, with `x` itself and not the clamped value of the forward pass |
| Rules.NegRule | src/autograd.rs:242-247 | `-x`: `x` loses `dy` |
| Rules.ExpRule | src/autograd.rs:248-253 | `exp(x)`: `x` gains `dy` times the forward value |
| Rules.TanhRule | src/autograd.rs:254-261 | `tanh(x)`: `x` gains `dy * (1 - y^2)` with `y` the forward value |
| Rules.ReluRule | src/autograd.rs:262-269 | `relu(x)`: `x` gains `dy` where the forward value is positive and nothing elsewhere |
| Rules.RepeatAddsAgain | src/autograd.rs:184-274 | a second `backward` without `zero_grad` adds the same contributions again |
| Rules.AddTwice | src/autograd.rs:199-203 | two passes over `a + b` leave each zero-started operand at `2 * dy` |
| Rules.EntriesDetermine | tests/autograd_test.rs:4-127 | the entry predicates the tests' expectations are written in hold exactly for the literal matrices |
| Rules.AddExample | tests/autograd_test.rs:4-15 | `[[1,2],[3,4]] + [[5,6],[7,8]]` seeded with ones gives both operands ones |
| Rules.MulExample | tests/autograd_test.rs:17-28 | the 2x2 product seeded with the identity gives `a` `[[5,7],[6,8]]` and `b` `[[1,3],[2,4]]` |
| Rules.DivExample | tests/autograd_test.rs:30-41 | `[[10,20]] / [[2,4]]` gives `[[0.5,0.25]]` and `[[-2.5,-1.25]]` |
| Rules.SubExample | tests/autograd_test.rs:43-54 | `[[10,5]] - [[3,2]]` gives ones and minus ones |
| Rules.PowExample | tests/autograd_test.rs:56-66 | squaring `[[2,3]]` gives `[[4,6]]` when `pow(x, 1) == x` there |
| Rules.LogExample | tests/autograd_test.rs:68-81 | log of `[[10,20]]` gives `[[0.1,0.05]]` |
| Rules.NegExample | tests/autograd_test.rs:83-92 | negating `[[1,-2]]` gives minus ones |
| Rules.ExpExample | tests/autograd_test.rs:94-105 | exp of `[[0,1]]` gives `[[1,e]]` when `exp(0) == 1` |
| Rules.ReluExample | tests/autograd_test.rs:107-116 | relu of `[[-1,2]]` gives `[[0,1]]` |
| Rules.TanhExample | tests/autograd_test.rs:118-127 | tanh at 0 gives gradient 1 when `tanh(0) == 0` |
| Nn.NewNeuron | src/nn.rs:22-32 | one leaf per drawn weight, in order, then a zero bias leaf; the arena only grows |
| Nn.NewNeuronParameters | src/nn.rs:49-53 | a new neuron's parameters are the weights then the bias: `nin + 1` consecutive new nodes |
| Nn.NewLayer | src/nn.rs:62-70 | `nout` neurons of `nin` weights with the given activation; the parameters are `nout * (nin + 1)` consecutive new nodes |
| Nn.NewMLP | src/nn.rs:107-123 | layer `i` maps `sizes[i]` to `sizes[i+1]` inputs, uses ReLU except for the last layer's softmax, and the parameters are all the new nodes in order |
| Nn.ExampleParamCount | tests/nn_test.rs:53-65 | `MLP::new(2, [4, 1])` has 17 parameters |
| Nn.SumProducts | src/nn.rs:35-39 | the accumulated node's value is the bias plus the inner product of weights and inputs, truncated to the shorter list as `zip` does |
| Nn.MulAdd | src/nn.rs:38 | `sum.add(&w.mul(xi))` appends exactly a `Mul` node over the weight and the input, then an `Add` node over the old sum and that product; the new sum's value is `acc + w * x` |
| Nn.SumProductsShape | src/nn.rs:35-39 | one `Mul` then one `Add` node per pair `zip` forms, left-nested from the bias: pair `k`'s sum node has the previous sum (the bias for the first) and pair `k`'s product as children; the result is the last sum, or the bias itself when there are no pairs |
| Nn.NeuronCall | src/nn.rs:34-47 | the neuron's output is the activation of its pre-activation (identity for softmax and none) |
| Nn.NeuronShape | src/nn.rs:34-46 | a neuron's graph is that chain followed by one `ReLU` or `Tanh` node over the last sum for those activations; for softmax and none nothing more is appended and the last sum is the output |
| Nn.Activated | src/nn.rs:41-46 | ReLU and tanh append exactly one node of that op whose only child is the sum; softmax and none return the sum node itself with the arena unchanged; the output's value is the activation of the sum's value |
| Nn.CallNeurons | src/nn.rs:72-77 | one output per neuron, each the activation of its own pre-activation over the same inputs |
| Nn.Exps | src/nn.rs:90 | one output per logit, in order, holding `exp` of that logit's value |
| Nn.ExpsShape | src/nn.rs:90 | the outputs are consecutive new nodes, each an `Exp` node whose only child is its own logit |
| Nn.SumChain | src/nn.rs:92-96 | the running sum's value is the first term plus the sum of the others |
| Nn.SumChainShape | src/nn.rs:92-96 | one `Add` node per further term, each over the previous sum (the first term for the first) and that term; the result is the last of them, or the first term itself when there is no other |
| Nn.Divs | src/nn.rs:98 | one output per entry, holding the entry's value divided by the divisor's value |
| Nn.DivsShape | src/nn.rs:98 | the outputs are consecutive new nodes, each a `Div` node with children `[entry, d]`, so all share the one divisor `d` |
| Nn.SoftmaxLayer | src/nn.rs:89-99 | the outputs' values are the softmax of the logits' values |
| Nn.SoftmaxShape | src/nn.rs:89-99 | the softmax graph of `n` logits: `n` `Exp` nodes, then `n - 1` `Add` nodes summing them from the first, then `n` `Div` nodes each dividing its exponential by that last sum; the `Div` nodes are the outputs |
| Nn.LayerSoftmaxShared | src/nn.rs:79-99 | a softmax layer's outputs, one per neuron, are `Div` nodes that all share one divisor, each dividing an `Exp` node |
| Nn.SoftmaxSumsToOne | src/nn.rs:89-99 | the softmax of a non-empty layer sums to 1 when `exp` is positive |
| Nn.LayerCall | src/nn.rs:72-83 | the layer's output values are the reference evaluation: activations, then softmax for a softmax layer |
| Nn.MLPCall | src/nn.rs:125-131 | the network's output values are the layers' reference evaluations composed in order |
| Nn.MLPOutputSumsToOne | src/nn.rs:125-131 | a network whose last layer is softmax outputs values summing to 1 |
| Nn.MLPZeroGrad | src/nn.rs:137-141 | every parameter's gradient is zeros of its shape; other nodes are unchanged |
| Optimizer.SgdUpdate | src/optimizer/sgd.rs:17-22 | one parameter's value becomes `value - lr * grad`; its gradient and every other node are unchanged |
| Optimizer.SgdStep | src/optimizer/sgd.rs:15-24 | unlisted nodes are unchanged; a node listed `m` times moves by `m * lr` times its unchanged gradient |
| Optimizer.SgdDistinct | src/optimizer/sgd.rs:15-24 | with a duplicate-free list, each listed parameter takes exactly one step `value - lr * grad` |
| Optimizer.SgdAfterZeroGrad | src/optimizer/mod.rs:11-15 | after `zero_grad` on the list, `step` leaves the arena unchanged |
| Optimizer.ZeroGradsIdempotent | src/optimizer/mod.rs:11-15 | `zero_grad` twice is `zero_grad` once |
| Optimizer.SgdExample | tests/optimizer_test.rs:5-16 | a 1x1 parameter at 10 with gradient 2 moves to 9.8 under learning rate 0.1 |
| Loss.CrossEntropy | src/loss/softmax_cross_entropy.rs:13-17 | appends `Log` of the target prediction, then `Neg` of that; the loss is `-ln(max(x, EPSILON))` entry by entry |
| Loss.CrossEntropySeeded | src/loss/softmax_cross_entropy.rs:13-17 | the loss graph with the caller's seed in the loss node's gradient; the caller's nodes are unchanged |
| Loss.CrossEntropyDifferentiable | src/helpers/cross_entropy.rs:3-7 | the loss reaches itself, the log node and what the target prediction reaches, and `backward` from it is defined when the prediction has no zero entry |
| Loss.CrossEntropyGrad | tests/loss_test.rs:36-40 | after `backward` from the loss, the target prediction's gradient is its old gradient minus `dy / x` entry by entry, and every node it does not reach is unchanged |
| Loss.NegLogGrad | src/autograd.rs:235-247 | for `neg(log(a))`, `a`'s gradient grows by `-dy / a` entry by entry |
| Loss.TargetAt | src/loss/mse.rs:18 | the one-hot target is 1 exactly at the target index and 0 elsewhere |
| Loss.MseTerm | src/loss/mse.rs:18-21 | one prediction adds `pow(p - t, 2)` to the running total through five new nodes: the target leaf, `Sub` over the prediction and it, the exponent leaf 2, `Pow` over those two, and `Add` over the old total and the square |
| Loss.MseTerms | src/loss/mse.rs:17-22 | the total is the sum of `pow(p_i - t_i, 2)` over the predictions, and every turn's five nodes sit in order after the previous turn's |
| Loss.Mse | src/loss/mse.rs:14-25 | the loss is the sum of squared errors divided by the number of predictions; its graph is the zero leaf, five nodes per prediction, the leaf holding `N`, and the loss: a `Div` node over the last running sum and that leaf |
| Loss.SquaredErrorsAreSquares | src/loss/mse.rs:20 | with `pow(x, 2) == x * x`, the graph's sum equals the reference sum of squares |
| Loss.SumSquaresZero | src/loss/mse.rs:17-22 | the sum of squares is non-negative, and zero exactly when every prediction equals its one-hot target |
| Loss.MseIsMean | src/loss/mse.rs:14-25 | the loss is the mean of the squared errors; it is non-negative, and zero exactly when every prediction equals its one-hot target |
| Loss.MseExample | tests/loss_test.rs:5-15 | predictions 0.1 and 0.9 against target 1 give 0.01 |
| MseGradient.MseDifferentiable | src/loss/mse.rs:14-25 | `backward` from the MSE loss is defined whenever it is on the caller's nodes: the only new division is by `N`, which is not zero |
| MseGradient.SumChain | src/loss/mse.rs:21-24 | in the pass from the loss, every running sum after the first turn ends with `dy / N`: the `Div` hands its dividend `dy / N`, and each `Add` passes its gradient on unchanged |
| MseGradient.TurnChain | src/loss/mse.rs:18-21 | a turn whose running sum holds `v` hands its prediction `v * 2 * pow(p - t, 1)`: the `Add` passes `v` to the square, the `Pow` hands its base `v * 2 * pow(d, 2 - 1)`, and the `Sub` passes that on |
| MseGradient.ChainGrad | src/loss/mse.rs:17-24 | in a loss graph seeded with `dy`, a prediction listed once and used by no caller node ends the pass with its old gradient plus `dy / N * 2 * pow(p - t, 1)` |
| MseGradient.MseGradient | src/loss/mse.rs:14-25 | `forward`, then `set_grad(dy)` on the loss and `backward`: the arena is well formed, the pass is defined, and prediction `i` gains `dy / N * 2 * pow(p_i - t_i, 1)`, the derivative of the mean of squared errors |
| MseGradient.MseGradExample | tests/loss_test.rs:17-23 | predictions 0.1 and 0.9 against target 1, seeded with 1, end with gradients 0.1 and -0.1 when `pow(x, 1) == x` |
| Visualization.NewVisualizer | src/helpers/visualization.rs:12-26 | defaults: horizontal, values shown, precision 4, no outputs |
| Visualization.AddOutput | src/helpers/visualization.rs:43-46 | appends the `(node, caption)` pair and keeps every other setting |
| Visualization.OpNameInjective | src/autograd.rs:312-314 | two operations print the same name exactly when they are the same operation |
| Visualization.Find | src/helpers/visualization.rs:62-65 | a node is found exactly when it is in the order, and then at its first position |
| Visualization.FindDistinct | src/helpers/visualization.rs:62-65 | in a duplicate-free order, each entry is found at its own position |
| Visualization.Draw | src/helpers/visualization.rs:53-60 | the picture opens with the header, `TB` when vertical and `LR` otherwise, and closes with the footer |
| Visualization.ArrowsComplete | src/helpers/visualization.rs:117-121 | when every child is in the order, there is one arrow per child, in order, from the child's position |
| Visualization.DrawBoxes | src/helpers/visualization.rs:67-115 | a box with id `k` is drawn exactly when `k` is a position of the order, and then with that node's label and colour |
| Visualization.ReachableDrawn | src/helpers/visualization.rs:54-115 | every node reachable from the root is drawn, at its position, with its label and colour |
| Visualization.DrawnArrowsAreEdges | src/helpers/visualization.rs:117-121 | every drawn arrow runs from an earlier position to a later one, from a child to its parent |
| Visualization.EdgesAreDrawn | src/helpers/visualization.rs:117-121 | every parent-child edge among the drawn nodes is drawn |
| Visualization.BoxStyle | src/helpers/visualization.rs:71-109 | green exactly for leaves; a leaf shows its name, or "Value" when unnamed; an operation shows its op name; the label is the bare name when values are hidden |
| Visualization.LabelShowsValues | src/helpers/visualization.rs:81-103 | with values shown, a value of exactly one entry prints that entry and the gradient's at the precision, and any other value prints the two shapes |
| Visualization.DrawOutputs | src/helpers/visualization.rs:124-130 | output oval `j` with its caption is drawn exactly when output `j` exists and its node is reachable from the root |
| Visualization.DrawExample | tests/visualization_test.rs:6-40 | the test's graph is drawn left to right, with green boxes `a` and `b` showing 1 and 2 with gradient 0, yellow `Mul` and `Add` boxes, and the `result` oval |

## Left out

- Rules: the per-operation rules are stated for one operation whose
  operands are leaves, the shape every unit test uses. For deeper graphs
  `Gradients.SoleParent` and `Gradients.BackwardAccumulates` give the
  accounting; no closed form per operation is stated there.
- Rules.RepeatAddsAgain: stated for one operation over leaves. In a deeper
  graph a second pass is not a plain repeat, since inner nodes start it
  with the gradients the first pass left them.

- Floating point. Values are reals: rounding, overflow, NaN and infinities
  are not modelled. `exp`, `ln`, `tanh`, `powf` and the `EPSILON` floor are
  uninterpreted parameters.
- Broadcasting. `ndarray` lets `+`, `-` and `/` broadcast operands of
  different shapes, or panic on a mismatch. The model requires equal
  shapes (matrix product: matching inner dimension), and those are the
  shapes every caller in the repository uses.
- Division by zero. `DivOp`, and the `Div` and `Log` rules of the backward
  pass, require nonzero divisors among the nodes the pass visits (the
  `Differentiable` predicate). The source would produce infinities or NaN.
- Loss.Mse: requires a non-empty prediction list. The source divides by 0
  there, which gives NaN.
- MseGradient.MseGradient: the gradient is stated for a prediction that
  appears once in the list and that no caller node has as a child. Otherwise
  more contributions reach it, and `Gradients.BackwardAccumulates` gives the
  general sum. It also asks that `backward` be defined on the caller's nodes
  and that the seed be 1x1. The slope is written `2 * pow(d, 1)`, since
  `pow` is uninterpreted; the test's `2 * d` needs `pow(x, 1) == x`.
- Nn.SoftmaxLayer: requires a non-empty layer. The source indexes
  `exps[0]` and panics on an empty one. Requires `exp` to be positive, a
  fact about the real function that the uninterpreted parameter does not
  carry.
- Random initialisation. `StdRng::seed_from_u64`, the seeds and the range
  `±sqrt(2/nin)` are not modelled. The draws are a parameter, so any draws
  are allowed.
- `AdamW` (`src/optimizer/adamw.rs`) is not part of this model. It is not
  part of the core.
- `src/main.rs` (the training demo) is not part of this model.
- `src/loss/mod.rs` only declares the `Loss` trait and an unused
  `Reduction` enum. The trait is modelled by the two loss functions.
- `Visualizer::save` (file output) and the exact text of the DOT output
  are not modelled. The text includes the `{:.prec$}` number formatting,
  the escaped newlines and the colour codes. `draw` is modelled as a list
  of line records carrying the same information.
- Visualization.WithVertical, Visualization.WithShowValues and
  Visualization.WithPrecision: these builders only set one field. They
  have no contract of their own and appear through `DrawExample`.
- Visualization.DrawExample: states the boxes and the oval the test looks
  for, but not the exact box ids. Those ids depend on the topological
  order.
- The `Debug` impl, `Clone` and `as_ptr` are not modelled. Identity is the
  arena index.
- The `backward: Option<fn>` field is not a separate field. In the source
  it is `Some` exactly when the op is not `None`, so the model tests the
  op.
- `tests/helpers/cross_entropy_test.rs` compares a graph handle with a
  number and does not compile. It states no property that can be
  modelled.
- Interior mutability (`Rc<RefCell<…>>`) and the borrow panics it could
  raise are not modelled. No `backward` branch holds a borrow across a
  mutable borrow of the same node.
