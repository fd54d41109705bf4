/** The Graphviz renderer: a builder-style configuration, and `draw`, which
    walks the topological order of a root and emits the header, one box
    per node, one arrow per operand, the output ovals and the closing
    brace. Lines are kept as records; number formatting and the byte-level
    text are not modelled. */
module Visualization {
  import opened Matrix
  import opened Autograd
  import opened Topo

  /** `Visualizer`: layout direction, whether labels carry numbers, the
      number of decimals, and the registered outputs as (node, caption). */
  datatype Visualizer = Visualizer(vertical: bool, showValues: bool, precision: nat, outputs: seq<(nat, string)>)

  /** `Visualizer::new`, which is `Default::default`. */
  function NewVisualizer(): (v: Visualizer)
    ensures !v.vertical && v.showValues && v.precision == 4 && v.outputs == []
  {
    Visualizer(false, true, 4, [])
  }

  function WithVertical(v: Visualizer, b: bool): Visualizer { v.(vertical := b) }
  function WithShowValues(v: Visualizer, b: bool): Visualizer { v.(showValues := b) }
  function WithPrecision(v: Visualizer, p: nat): Visualizer { v.(precision := p) }

  /** `add_output`: the pair goes at the end; earlier registrations stay. */
  function AddOutput(v: Visualizer, node: nat, caption: string): (r: Visualizer)
    ensures r.vertical == v.vertical && r.showValues == v.showValues && r.precision == v.precision
    ensures |r.outputs| == |v.outputs| + 1 && r.outputs[..|v.outputs|] == v.outputs
    ensures r.outputs[|v.outputs|] == (node, caption)
  {
    v.(outputs := v.outputs + [(node, caption)])
  }

  /** The `Debug` spelling of an op, which is what `op()` returns. */
  function OpName(op: Op): string {
    match op
    case Add => "Add"
    case Sub => "Sub"
    case Neg => "Neg"
    case Mul => "Mul"
    case Div => "Div"
    case Pow => "Pow"
    case Log => "Log"
    case Exp => "Exp"
    case Tanh => "Tanh"
    case ReLU => "ReLU"
    case None => "None"
  }

  /** Distinct ops print differently, so comparing `op()` with "None"
      recognises exactly the leaves. */
  lemma OpNameInjective(a: Op, b: Op)
    ensures OpName(a) == OpName(b) <==> a == b
  {
  }

  datatype Color = Green | Yellow

  /** A box's label: the display name with the scalar's value and gradient
      at the configured precision, with the two shapes, or alone. */
  datatype Label =
    | Numbers(name: string, value: real, grad: real, precision: nat)
    | Shapes(name: string, valueShape: (nat, nat), gradShape: (nat, nat))
    | Plain(name: string)

  /** One written line of the DOT text. */
  datatype Line =
    | Header(rankdir: string)
    | Box(id: nat, title: Label, color: Color)
    | Arrow(from: nat, to: nat)
    | OutputOval(index: nat, caption: string)
    | OutputArrow(from: nat, index: nat)
    | Footer

  /** A leaf shows its name, or "Value" when it has none; any other node
      shows its op, whatever its name. */
  function DisplayName(n: Node): string {
    if OpName(n.op) == "None" then (if n.name == "" then "Value" else n.name)
    else OpName(n.op)
  }

  /** The label of a node's box; a value with one element prints its single
      entry (and the gradient's), any other value prints both shapes. */
  function LabelOf(v: Visualizer, n: Node): Label {
    if !v.showValues then Plain(DisplayName(n))
    else if n.value.rows * n.value.cols == 1 && Valid(n.value) && Valid(n.grad) && n.grad.rows * n.grad.cols >= 1 then
      Numbers(DisplayName(n), n.value.data[0][0], n.grad.data[0][0], v.precision)
    else Shapes(DisplayName(n), (n.value.rows, n.value.cols), (n.grad.rows, n.grad.cols))
  }

  /** Leaves are filled green, op nodes yellow. */
  function ColorOf(n: Node): Color {
    if OpName(n.op) == "None" then Green else Yellow
  }

  /** The outcome of looking a node up in the id table. */
  datatype Lookup = Found(id: nat) | Missing

  /** The id table built from the topological order: a node's id is its
      position in the order. This is the first position; the source's map
      keeps the last one inserted for a repeated node. The two agree on the
      orders `draw` uses, which have no repeats (`FindDistinct`). */
  function Find(t: seq<nat>, x: nat): (r: Lookup)
    ensures r.Found? <==> x in t
    ensures r.Found? ==> r.id < |t| && t[r.id] == x && x !in t[..r.id]
  {
    if t == [] then Missing
    else if t[0] == x then Found(0)
    else
      var r := Find(t[1..], x);
      if r.Found? then
        assert t[1..][..r.id] == t[1..r.id + 1];
        assert t[..r.id + 1] == [t[0]] + t[1..r.id + 1];
        Found(r.id + 1)
      else Missing
  }

  /** In a duplicate-free order the id of an entry is its position. */
  lemma FindDistinct(t: seq<nat>, k: nat)
    requires Distinct(t) && k < |t|
    ensures Find(t, t[k]) == Found(k)
  {
  }

  /** One arrow per operand whose id is known, in operand order. */
  function Arrows(t: seq<nat>, cs: seq<nat>, to: nat): seq<Line>
    decreases |cs|
  {
    if cs == [] then []
    else
      (match Find(t, cs[0]) case Found(c) => [Arrow(c, to)] case Missing => [])
      + Arrows(t, cs[1..], to)
  }

  /** The lines for the node with id `k`: its box, then its operands' arrows. */
  function Block(v: Visualizer, g: Arena, t: seq<nat>, k: nat): seq<Line>
    requires k < |t| && t[k] < |g|
  {
    var n := g[t[k]];
    [Box(k, LabelOf(v, n), ColorOf(n))] + Arrows(t, n.children, k)
  }

  /** The blocks of the nodes with ids from `k` on. */
  function Blocks(v: Visualizer, g: Arena, t: seq<nat>, k: nat): seq<Line>
    requires forall i :: 0 <= i < |t| ==> t[i] < |g|
    decreases |t| - k
  {
    if k >= |t| then [] else Block(v, g, t, k) + Blocks(v, g, t, k + 1)
  }

  /** The output lines for registrations from index `i` on; a registration
      whose node the walk did not reach is skipped but keeps its index. */
  function Outputs(t: seq<nat>, outs: seq<(nat, string)>, i: nat): seq<Line>
    decreases |outs| - i
  {
    if i >= |outs| then []
    else
      (match Find(t, outs[i].0)
       case Found(id) => [OutputOval(i, outs[i].1), OutputArrow(id, i)]
       case Missing => [])
      + Outputs(t, outs, i + 1)
  }

  /** `draw`: the header with `rankdir` TB when vertical and LR otherwise,
      the blocks in topological order, the outputs, the closing brace. */
  function Draw(v: Visualizer, g: Arena, root: nat): (d: seq<Line>)
    requires Acyclic(g) && root < |g|
    ensures |d| >= 2 && d[0] == Header(if v.vertical then "TB" else "LR") && d[|d| - 1] == Footer
  {
    var t := GetTopo(g, root);
    [Header(if v.vertical then "TB" else "LR")] + Blocks(v, g, t, 0) + Outputs(t, v.outputs, 0) + [Footer]
  }

  // ---------------------------------------------------------------- arrows

  /** The reference for a node's arrows: one per operand, from the operand's
      position in the order to `to`. */
  function Position(t: seq<nat>, x: nat): nat
    requires x in t
  {
    Find(t, x).id
  }

  /** When every operand is in the order, the arrows are exactly one per
      operand, in operand order, each from the operand's position. */
  lemma {:induction false} ArrowsComplete(t: seq<nat>, cs: seq<nat>, to: nat)
    requires forall j :: 0 <= j < |cs| ==> cs[j] in t
    ensures |Arrows(t, cs, to)| == |cs|
    ensures forall j :: 0 <= j < |cs| ==> Arrows(t, cs, to)[j] == Arrow(Position(t, cs[j]), to)
    decreases |cs|
  {
    if cs != [] {
      ArrowsComplete(t, cs[1..], to);
      forall j | 1 <= j < |cs| ensures Arrows(t, cs, to)[j] == Arrow(Position(t, cs[j]), to) {
        assert cs[1..][j - 1] == cs[j];
      }
    }
  }

  /** In the topological order every operand of a node sits at a smaller id,
      so each arrow points from an earlier box to a later one. */
  lemma NodeArrows(g: Arena, root: nat, k: nat)
    requires Acyclic(g) && root < |g| && k < |GetTopo(g, root)|
    ensures var t := GetTopo(g, root); var cs := g[t[k]].children;
      |Arrows(t, cs, k)| == |cs|
      && forall j :: 0 <= j < |cs| ==>
           cs[j] in t && Arrows(t, cs, k)[j] == Arrow(Position(t, cs[j]), k)
           && Position(t, cs[j]) < k && t[Position(t, cs[j])] == cs[j]
  {
    var t := GetTopo(g, root);
    var cs := g[t[k]].children;
    forall j | 0 <= j < |cs| ensures cs[j] in t && Position(t, cs[j]) < k {
      assert cs[j] in t[..k];
      var a :| 0 <= a < k && t[a] == cs[j];
      FindDistinct(t, a);
    }
    ArrowsComplete(t, cs, k);
  }

  // ---------------------------------------------------------------- boxes

  /** The boxes among the blocks from `k` on are those of ids `k`.. in
      order, each with its node's label and colour; nothing else but arrows. */
  lemma {:induction false} BlocksBoxes(v: Visualizer, g: Arena, t: seq<nat>, k: nat, line: Line)
    requires forall i :: 0 <= i < |t| ==> t[i] < |g|
    requires line in Blocks(v, g, t, k)
    ensures line.Box? || line.Arrow?
    ensures line.Box? ==> k <= line.id < |t| && line.title == LabelOf(v, g[t[line.id]]) && line.color == ColorOf(g[t[line.id]])
    ensures line.Arrow? ==> k <= line.to < |t| && line.from < |t| && t[line.from] in g[t[line.to]].children
    decreases |t| - k
  {
    if k < |t| {
      if line in Arrows(t, g[t[k]].children, k) {
        ArrowsOnly(t, g[t[k]].children, k, line);
      } else if line in Block(v, g, t, k) {
      } else {
        BlocksBoxes(v, g, t, k + 1, line);
      }
    }
  }

  /** A node's arrows are arrows into it. */
  lemma {:induction false} ArrowsOnly(t: seq<nat>, cs: seq<nat>, to: nat, line: Line)
    requires line in Arrows(t, cs, to)
    ensures line.Arrow? && line.to == to && line.from < |t| && t[line.from] in cs
    decreases |cs|
  {
    if cs != [] && line !in (match Find(t, cs[0]) case Found(c) => [Arrow(c, to)] case Missing => []) {
      ArrowsOnly(t, cs[1..], to, line);
    }
  }

  /** The lines of the block of id `id` are among the blocks from `k` on. */
  lemma {:induction false} BlockInBlocks(v: Visualizer, g: Arena, t: seq<nat>, k: nat, id: nat, line: Line)
    requires forall i :: 0 <= i < |t| ==> t[i] < |g|
    requires k <= id < |t| && line in Block(v, g, t, id)
    ensures line in Blocks(v, g, t, k)
    decreases id - k
  {
    if id > k {
      BlockInBlocks(v, g, t, k + 1, id, line);
    }
  }

  /** The drawing has exactly one kind of box per reachable node: a box
      with id `id` is drawn iff `id` is a position of the topological order,
      and it carries that node's label and colour. */
  lemma DrawBoxes(v: Visualizer, g: Arena, root: nat, id: nat, title: Label, color: Color)
    requires Acyclic(g) && root < |g|
    ensures var t := GetTopo(g, root);
      Box(id, title, color) in Draw(v, g, root) <==>
        id < |t| && title == LabelOf(v, g[t[id]]) && color == ColorOf(g[t[id]])
  {
    var t := GetTopo(g, root);
    var d := Draw(v, g, root);
    var line := Box(id, title, color);
    var bl := Blocks(v, g, t, 0);
    var os := Outputs(t, v.outputs, 0);
    assert d == [Header(if v.vertical then "TB" else "LR")] + bl + os + [Footer];
    if line in d {
      if line !in bl {
        OutputsOnly(t, v.outputs, 0, line);
      } else {
        BlocksBoxes(v, g, t, 0, line);
      }
    }
    if id < |t| && title == LabelOf(v, g[t[id]]) && color == ColorOf(g[t[id]]) {
      BlockInBlocks(v, g, t, 0, id, line);
    }
  }

  /** Every node reachable from the root is drawn, with its label and
      colour, in the box whose id is its position in the order. */
  lemma ReachableDrawn(v: Visualizer, g: Arena, root: nat, x: nat)
    requires Acyclic(g) && root < |g| && x in Reach(g, root)
    ensures x in GetTopo(g, root)
    ensures Box(Position(GetTopo(g, root), x), LabelOf(v, g[x]), ColorOf(g[x])) in Draw(v, g, root)
  {
    var t := GetTopo(g, root);
    DrawBoxes(v, g, root, Position(t, x), LabelOf(v, g[x]), ColorOf(g[x]));
  }

  /** Every arrow drawn joins an operand's box to its user's box: the
      operand sits earlier in the order, and is a child of the user. */
  lemma DrawnArrowsAreEdges(v: Visualizer, g: Arena, root: nat, a: nat, b: nat)
    requires Acyclic(g) && root < |g| && Arrow(a, b) in Draw(v, g, root)
    ensures var t := GetTopo(g, root); a < b < |t| && t[a] in g[t[b]].children
  {
    var t := GetTopo(g, root);
    var line := Arrow(a, b);
    var bl := Blocks(v, g, t, 0);
    var os := Outputs(t, v.outputs, 0);
    assert Draw(v, g, root) == [Header(if v.vertical then "TB" else "LR")] + bl + os + [Footer];
    if line in os {
      OutputsOnly(t, v.outputs, 0, line);
    }
    BlocksBoxes(v, g, t, 0, line);
    var j :| 0 <= j < |g[t[b]].children| && g[t[b]].children[j] == t[a];
    assert t[a] in t[..b];
    var i :| 0 <= i < b && t[i] == t[a];
  }

  /** Every operand of every reachable node gets its arrow, from the
      operand's box into the user's box. */
  lemma EdgesAreDrawn(v: Visualizer, g: Arena, root: nat, k: nat, j: nat)
    requires Acyclic(g) && root < |g| && k < |GetTopo(g, root)|
    requires j < |g[GetTopo(g, root)[k]].children|
    ensures var t := GetTopo(g, root); var c := g[t[k]].children[j];
      c in t && Arrow(Position(t, c), k) in Draw(v, g, root)
  {
    var t := GetTopo(g, root);
    NodeArrows(g, root, k);
    var line := Arrows(t, g[t[k]].children, k)[j];
    assert line in Block(v, g, t, k);
    BlockInBlocks(v, g, t, 0, k, line);
  }

  /** Leaves are green and op nodes yellow; without values a label is the
      display name alone. */
  lemma BoxStyle(v: Visualizer, n: Node)
    ensures ColorOf(n) == Green <==> n.op == None
    ensures !v.showValues ==> LabelOf(v, n) == Plain(DisplayName(n))
    ensures n.op != None ==> DisplayName(n) == OpName(n.op)
    ensures n.op == None ==> DisplayName(n) == (if n.name == "" then "Value" else n.name)
  {
    OpNameInjective(n.op, None);
  }

  /** With values shown, a node whose value has exactly one entry prints
      that entry and its gradient's at the configured precision; any other
      value prints the shapes of the value and the gradient. */
  lemma LabelShowsValues(v: Visualizer, n: Node)
    requires v.showValues && Valid(n.value) && Valid(n.grad) && SameShape(n.grad, n.value)
    ensures LabelOf(v, n).Numbers? <==> n.value.rows == 1 && n.value.cols == 1
    ensures n.value.rows == 1 && n.value.cols == 1 ==>
              LabelOf(v, n) == Numbers(DisplayName(n), n.value.data[0][0], n.grad.data[0][0], v.precision)
    ensures !(n.value.rows == 1 && n.value.cols == 1) ==>
              LabelOf(v, n) == Shapes(DisplayName(n), (n.value.rows, n.value.cols), (n.value.rows, n.value.cols))
  {
    OneEntry(n.value.rows, n.value.cols);
  }

  /** A product of two naturals is one exactly when both are. */
  lemma OneEntry(a: nat, b: nat)
    ensures a * b == 1 <==> a == 1 && b == 1
  {
    if a > 1 && b > 0 {
      assert a * b >= 2 * b;
    } else if b > 1 && a > 0 {
      assert a * b >= a * 2;
    }
  }

  // ---------------------------------------------------------------- outputs

  /** The output section holds only ovals and their arrows. */
  lemma {:induction false} OutputsOnly(t: seq<nat>, outs: seq<(nat, string)>, i: nat, line: Line)
    requires line in Outputs(t, outs, i)
    ensures line.OutputOval? || line.OutputArrow?
    decreases |outs| - i
  {
    if i < |outs| && line !in (match Find(t, outs[i].0)
                               case Found(id) => [OutputOval(i, outs[i].1), OutputArrow(id, i)]
                               case Missing => []) {
      OutputsOnly(t, outs, i + 1, line);
    }
  }

  /** The oval for registration `j` is drawn, under its caption, iff the
      registered node is in the order. */
  lemma {:induction false} OutputsOval(t: seq<nat>, outs: seq<(nat, string)>, i: nat, j: nat, caption: string)
    ensures OutputOval(j, caption) in Outputs(t, outs, i) <==>
      i <= j < |outs| && outs[j].1 == caption && outs[j].0 in t
    decreases |outs| - i
  {
    if i < |outs| {
      OutputsOval(t, outs, i + 1, j, caption);
    }
  }

  /** An output oval is drawn exactly for the registrations whose node is
      reachable from the root, numbered by registration index, with the
      registered caption. */
  lemma DrawOutputs(v: Visualizer, g: Arena, root: nat, j: nat, caption: string)
    requires Acyclic(g) && root < |g|
    ensures OutputOval(j, caption) in Draw(v, g, root) <==>
      j < |v.outputs| && v.outputs[j].1 == caption && v.outputs[j].0 in Reach(g, root)
  {
    var t := GetTopo(g, root);
    var line := OutputOval(j, caption);
    var bl := Blocks(v, g, t, 0);
    var os := Outputs(t, v.outputs, 0);
    assert Draw(v, g, root) == [Header(if v.vertical then "TB" else "LR")] + bl + os + [Footer];
    if line in bl {
      BlocksBoxes(v, g, t, 0, line);
    }
    OutputsOval(t, v.outputs, 0, j, caption);
  }

  /** The graph of the visualisation test: leaves a = 1 and b = 2, then
      c = a * b and d = c + a, each named, every gradient zero. */
  function TestGraph(): (g: Arena)
    ensures WellFormed(g) && |g| == 4
    ensures g[0].children == [] && g[1].children == [] && g[2].children == [0, 1] && g[3].children == [2, 0]
    ensures g[0].op == None && g[1].op == None && g[2].op == Mul && g[3].op == Add
    ensures g[0].name == "a" && g[1].name == "b" && g[2].name == "c" && g[3].name == "d"
    ensures ZeroGradScalar(g, 0) && ZeroGradScalar(g, 1) && ZeroGradScalar(g, 2) && ZeroGradScalar(g, 3)
    ensures Val(g, 0) == 1.0 && Val(g, 1) == 2.0 && Val(g, 2) == 2.0 && Val(g, 3) == 3.0
  {
    var g1 := TestLeaves();
    var m := MulOp(g1, 0, 1);
    assert m[..2] == g1;
    assert Dot(g1[0].value, g1[1].value, 0, 0, 1) == 2.0;
    var g2 := SetName(m, 2, "c");
    assert g2[0] == g1[0] && g2[1] == g1[1];
    var a := AddOp(g2, 2, 0);
    assert a[..3] == g2;
    var g := SetName(a, 3, "d");
    assert g[0] == g1[0] && g[1] == g1[1] && g[2] == g2[2];
    g
  }

  /** Node `i` holds a single entry and a zero gradient of the same shape. */
  predicate ZeroGradScalar(g: Arena, i: nat) {
    ScalarAt(g, i) && Valid(g[i].grad) && g[i].grad.rows == 1 && g[i].grad.cols == 1 && g[i].grad.data[0][0] == 0.0
  }

  /** The two named leaves of the test graph, a = 1 and b = 2. */
  function TestLeaves(): (g: Arena)
    ensures WellFormed(g) && |g| == 2 && g[0].children == [] && g[1].children == []
    ensures g[0].op == None && g[1].op == None && g[0].name == "a" && g[1].name == "b"
    ensures ZeroGradScalar(g, 0) && ZeroGradScalar(g, 1)
    ensures Val(g, 0) == 1.0 && Val(g, 1) == 2.0
  {
    var g0 := SetName(New([], Fill(1, 1, 1.0)), 0, "a");
    var g1 := SetName(New(g0, Fill(1, 1, 2.0)), 1, "b");
    assert g1[0] == g0[0];
    g1
  }

  /** The visualisation test: drawn from d with two decimals and d
      registered as "result", the picture is laid out left to right, has
      green boxes "a" and "b" showing 1 and 2 with gradient 0, yellow boxes
      for the product and the sum, and the output oval "result". */
  lemma DrawExample()
    ensures var v := AddOutput(WithPrecision(WithShowValues(WithVertical(NewVisualizer(), false), true), 2), 3, "result");
      var d := Draw(v, TestGraph(), 3);
      d[0] == Header("LR")
      && (exists id :: Box(id, Numbers("a", 1.0, 0.0, 2), Green) in d)
      && (exists id :: Box(id, Numbers("b", 2.0, 0.0, 2), Green) in d)
      && (exists id :: Box(id, Numbers("Mul", 2.0, 0.0, 2), Yellow) in d)
      && (exists id :: Box(id, Numbers("Add", 3.0, 0.0, 2), Yellow) in d)
      && OutputOval(0, "result") in d
  {
    var g := TestGraph();
    var v := AddOutput(WithPrecision(WithShowValues(WithVertical(NewVisualizer(), false), true), 2), 3, "result");
    assert v == Visualizer(false, true, 2, [(3, "result")]);
    ExamplePicture(v, g);
  }

  /** The picture of the visualisation test, for any arena shaped like the
      test graph. */
  lemma ExamplePicture(v: Visualizer, g: Arena)
    requires v == Visualizer(false, true, 2, [(3, "result")])
    requires Acyclic(g) && |g| == 4 && g[2].children == [0, 1] && g[3].children == [2, 0]
    requires g[0].op == None && g[1].op == None && g[2].op == Mul && g[3].op == Add
    requires g[0].name == "a" && g[1].name == "b"
    requires ZeroGradScalar(g, 0) && ZeroGradScalar(g, 1) && ZeroGradScalar(g, 2) && ZeroGradScalar(g, 3)
    requires Val(g, 0) == 1.0 && Val(g, 1) == 2.0 && Val(g, 2) == 2.0 && Val(g, 3) == 3.0
    ensures var d := Draw(v, g, 3);
      d[0] == Header("LR")
      && (exists id :: Box(id, Numbers("a", 1.0, 0.0, 2), Green) in d)
      && (exists id :: Box(id, Numbers("b", 2.0, 0.0, 2), Green) in d)
      && (exists id :: Box(id, Numbers("Mul", 2.0, 0.0, 2), Yellow) in d)
      && (exists id :: Box(id, Numbers("Add", 3.0, 0.0, 2), Yellow) in d)
      && OutputOval(0, "result") in d
  {
    assert 2 in Reach(g, 3) && 0 in Reach(g, 3) && 1 in Reach(g, 3) by {
      KidInReachKids(g, 3, 0, 0);
      KidInReachKids(g, 3, 0, 1);
      KidInReachKids(g, 2, 0, 1);
      assert ReachKids(g, 3, 0) == Reach(g, 2) + ReachKids(g, 3, 1);
    }
    BoxStyle(v, g[0]);
    BoxStyle(v, g[1]);
    BoxStyle(v, g[2]);
    BoxStyle(v, g[3]);
    DrawShows(v, g, 3, 0, Numbers("a", 1.0, 0.0, 2), Green);
    DrawShows(v, g, 3, 1, Numbers("b", 2.0, 0.0, 2), Green);
    DrawShows(v, g, 3, 2, Numbers("Mul", 2.0, 0.0, 2), Yellow);
    DrawShows(v, g, 3, 3, Numbers("Add", 3.0, 0.0, 2), Yellow);
    DrawOutputs(v, g, 3, 0, "result");
  }

  /** A reachable node's box is in the picture. */
  lemma DrawShows(v: Visualizer, g: Arena, root: nat, x: nat, lab: Label, col: Color)
    requires Acyclic(g) && root < |g| && x in Reach(g, root)
    requires LabelOf(v, g[x]) == lab && ColorOf(g[x]) == col
    ensures exists id :: Box(id, lab, col) in Draw(v, g, root)
  {
    ReachableDrawn(v, g, root, x);
  }
}
