/** The network layer of nn.py over the engine's arena.  A neuron, a layer
    and a network are values holding the indices of their parameter nodes;
    building one and calling one append nodes to a `Graph`.  Pure reference
    functions say which numbers a call computes, given the numbers stored in
    the parameter nodes. */
module NN {
  import opened Values
  import opened Engine

  /** `Neuron`: its weight nodes `w`, in order, and its bias node `b`. */
  datatype Neuron = Neuron(w: seq<nat>, b: nat)

  /** `Layer`: its neurons, in order. */
  datatype Layer = Layer(neurons: seq<Neuron>)

  /** `MLP`: its layers, in order. */
  datatype MLP = MLP(layers: seq<Layer>)

  /** What a call receives and returns: a list of inputs, or the single
      Value that a one-neuron layer hands on. */
  datatype Signal = Many(xs: seq<Operand>) | Single(id: nat)

  /** The numbers a signal stands for. */
  datatype Reading = Numbers(vs: seq<real>) | Number(v: real)

  function Min(a: nat, b: nat): nat
  {
    if a <= b then a else b
  }

  /** The consecutive indices `lo`, ..., `hi - 1`. */
  function Range(lo: nat, hi: nat): (r: seq<nat>)
    requires lo <= hi
    ensures |r| == hi - lo && forall i :: 0 <= i < |r| ==> r[i] == lo + i
  {
    seq(hi - lo, i requires 0 <= i < hi - lo => lo + i)
  }

  lemma RangeSplit(a: nat, b: nat, c: nat)
    requires a <= b <= c
    ensures Range(a, b) + Range(b, c) == Range(a, c)
  {
  }

  // ---------------------------------------------------------------------
  // Parameters

  /** `Neuron.parameters()`: the weights in order, then the bias. */
  function NeuronParameters(n: Neuron): seq<nat>
  {
    n.w + [n.b]
  }

  /** The parameters of a list of neurons, concatenated in neuron order. */
  function NeuronsParameters(ns: seq<Neuron>): seq<nat>
    decreases |ns|
  {
    if |ns| == 0 then [] else NeuronParameters(ns[0]) + NeuronsParameters(ns[1..])
  }

  /** `Layer.parameters()`. */
  function LayerParameters(l: Layer): seq<nat>
  {
    NeuronsParameters(l.neurons)
  }

  /** The parameters of a list of layers, concatenated in layer order. */
  function LayersParameters(ls: seq<Layer>): seq<nat>
    decreases |ls|
  {
    if |ls| == 0 then [] else LayerParameters(ls[0]) + LayersParameters(ls[1..])
  }

  /** `MLP.parameters()`. */
  function MLPParameters(m: MLP): seq<nat>
  {
    LayersParameters(m.layers)
  }

  /** A layer of `nout` neurons with `nin` weights each. */
  predicate LayerShape(l: Layer, nin: nat, nout: nat)
  {
    |l.neurons| == nout && forall j :: 0 <= j < nout ==> |l.neurons[j].w| == nin
  }

  /** With `sz = [nin] + nouts`, layer `i` has `sz[i]` inputs and `sz[i + 1]` neurons. */
  predicate LayersShape(ls: seq<Layer>, nin: nat, nouts: seq<nat>)
  {
    |ls| == |nouts| &&
    forall i :: 0 <= i < |ls| ==> LayerShape(ls[i], ([nin] + nouts)[i], ([nin] + nouts)[i + 1])
  }

  predicate MLPShape(m: MLP, nin: nat, nouts: seq<nat>)
  {
    LayersShape(m.layers, nin, nouts)
  }

  /** The number of parameters of `MLP(nin, nouts)`: a layer from `a` inputs
      to `b` neurons has `b * (a + 1)`. */
  function ParameterCount(nin: nat, nouts: seq<nat>): nat
    decreases |nouts|
  {
    if |nouts| == 0 then 0 else nouts[0] * (nin + 1) + ParameterCount(nouts[0], nouts[1..])
  }

  lemma {:induction false} NeuronsParameterCount(ns: seq<Neuron>, nin: nat)
    requires forall j :: 0 <= j < |ns| ==> |ns[j].w| == nin
    ensures |NeuronsParameters(ns)| == |ns| * (nin + 1)
    decreases |ns|
  {
    if |ns| > 0 {
      NeuronsParameterCount(ns[1..], nin);
      assert |ns| * (nin + 1) == (nin + 1) + (|ns| - 1) * (nin + 1);
    }
  }

  /** A layer of `nout` neurons with `nin` inputs has `nout * (nin + 1)` parameters. */
  lemma LayerParameterCount(l: Layer, nin: nat, nout: nat)
    requires LayerShape(l, nin, nout)
    ensures |LayerParameters(l)| == nout * (nin + 1)
  {
    NeuronsParameterCount(l.neurons, nin);
  }

  /** Parameter `t` of neuron `j` sits at position `j * (nin + 1) + t` of the layer's list. */
  lemma {:induction false} LayerParameterAt(l: Layer, nin: nat, j: nat, t: nat)
    requires LayerShape(l, nin, |l.neurons|) && j < |l.neurons| && t <= nin
    ensures j * (nin + 1) + t < |LayerParameters(l)|
    ensures LayerParameters(l)[j * (nin + 1) + t] == NeuronParameters(l.neurons[j])[t]
    decreases j
  {
    var ns := l.neurons;
    var first := NeuronParameters(ns[0]);
    var rest := Layer(ns[1..]);
    assert |first| == nin + 1 && LayerParameters(l) == first + LayerParameters(rest);
    if j > 0 {
      LayerParameterAt(rest, nin, j - 1, t);
      StrideStep(j, nin + 1);
      assert rest.neurons[j - 1] == ns[j];
    }
  }

  lemma StrideStep(j: nat, k: nat)
    requires j > 0
    ensures j * k == k + (j - 1) * k
  {
  }

  lemma LayersShapeTail(ls: seq<Layer>, nin: nat, nouts: seq<nat>)
    requires LayersShape(ls, nin, nouts) && |ls| > 0
    ensures LayerShape(ls[0], nin, nouts[0]) && LayersShape(ls[1..], nouts[0], nouts[1..])
  {
    assert LayerShape(ls[0], ([nin] + nouts)[0], ([nin] + nouts)[1]);
    forall i | 0 <= i < |ls| - 1
      ensures LayerShape(ls[1..][i], ([nouts[0]] + nouts[1..])[i], ([nouts[0]] + nouts[1..])[i + 1])
    {
      assert LayerShape(ls[i + 1], ([nin] + nouts)[i + 1], ([nin] + nouts)[i + 2]);
    }
  }

  /** `MLP(nin, nouts)` has `ParameterCount(nin, nouts)` parameters. */
  lemma {:induction false} MLPParameterCount(m: MLP, nin: nat, nouts: seq<nat>)
    requires MLPShape(m, nin, nouts)
    ensures |MLPParameters(m)| == ParameterCount(nin, nouts)
    decreases |nouts|
  {
    var ls := m.layers;
    if |ls| > 0 {
      LayersShapeTail(ls, nin, nouts);
      LayerParameterCount(ls[0], nin, nouts[0]);
      MLPParameterCount(MLP(ls[1..]), nouts[0], nouts[1..]);
    }
  }

  lemma {:induction false} NeuronsParametersSnoc(ns: seq<Neuron>, n: Neuron)
    ensures NeuronsParameters(ns + [n]) == NeuronsParameters(ns) + NeuronParameters(n)
    decreases |ns|
  {
    if |ns| == 0 {
      assert ns + [n] == [n];
    } else {
      assert (ns + [n])[1..] == ns[1..] + [n];
      NeuronsParametersSnoc(ns[1..], n);
    }
  }

  lemma {:induction false} LayersParametersSnoc(ls: seq<Layer>, l: Layer)
    ensures LayersParameters(ls + [l]) == LayersParameters(ls) + LayerParameters(l)
    decreases |ls|
  {
    if |ls| == 0 {
      assert ls + [l] == [l];
    } else {
      assert (ls + [l])[1..] == ls[1..] + [l];
      LayersParametersSnoc(ls[1..], l);
    }
  }

  // ---------------------------------------------------------------------
  // Construction

  predicate NeuronIn(size: nat, n: Neuron)
  {
    n.b < size && forall i :: 0 <= i < |n.w| ==> n.w[i] < size
  }

  predicate LayerIn(size: nat, l: Layer)
  {
    forall j :: 0 <= j < |l.neurons| ==> NeuronIn(size, l.neurons[j])
  }

  predicate MLPIn(size: nat, m: MLP)
  {
    forall i :: 0 <= i < |m.layers| ==> LayerIn(size, m.layers[i])
  }

  /** A freshly built neuron: leaf weights of gradient 0 with values in
      [-1, 1], and a leaf bias of value 0 and gradient 0. */
  predicate InitialNeuron(g: Arena, n: Neuron)
  {
    NeuronIn(|g|, n) && g[n.b] == Node(0.0, 0.0, Leaf) &&
    forall i :: 0 <= i < |n.w| ==>
      g[n.w[i]].grad == 0.0 && g[n.w[i]].op == Leaf && -1.0 <= g[n.w[i]].data <= 1.0
  }

  predicate InitialNeurons(g: Arena, ns: seq<Neuron>)
  {
    forall j :: 0 <= j < |ns| ==> InitialNeuron(g, ns[j])
  }

  lemma InitialNeuronExtends(g: Arena, h: Arena, n: Neuron)
    requires Extends(g, h) && InitialNeuron(g, n)
    ensures InitialNeuron(h, n)
  {
    ExtendsAt(g, h, n.b);
    forall i | 0 <= i < |n.w| ensures h[n.w[i]] == g[n.w[i]] {
      ExtendsAt(g, h, n.w[i]);
    }
  }

  lemma InitialNeuronsExtends(g: Arena, h: Arena, ns: seq<Neuron>)
    requires Extends(g, h) && InitialNeurons(g, ns)
    ensures InitialNeurons(h, ns)
  {
    forall j | 0 <= j < |ns| ensures InitialNeuron(h, ns[j]) {
      InitialNeuronExtends(g, h, ns[j]);
    }
  }

  /** `Neuron(nin)`: `nin` weight leaves, each drawn from [-1, 1], then a bias leaf of value 0. */
  method NewNeuron(g: Graph, nin: nat) returns (n: Neuron)
    requires g.Valid()
    modifies g
    ensures g.Valid() && Extends(old(g.nodes), g.nodes)
    ensures |n.w| == nin && InitialNeuron(g.nodes, n)
    ensures NeuronParameters(n) == Range(|old(g.nodes)|, |g.nodes|)
  {
    ghost var g0 := g.nodes;
    var w: seq<nat> := [];
    while |w| < nin
      invariant g.Valid() && Extends(g0, g.nodes) && |w| <= nin
      invariant w == Range(|g0|, |g.nodes|)
      invariant forall i :: 0 <= i < |w| ==>
        g.nodes[w[i]].grad == 0.0 && g.nodes[w[i]].op == Leaf && -1.0 <= g.nodes[w[i]].data <= 1.0
    {
      var x: real :| -1.0 <= x <= 1.0;
      ghost var before := g.nodes;
      var id := g.NewValue(x, Leaf);
      ExtendsGrow(g0, before, [Node(x, 0.0, Leaf)]);
      w := w + [id];
    }
    ghost var before := g.nodes;
    var b := g.NewValue(0.0, Leaf);
    ExtendsGrow(g0, before, [Node(0.0, 0.0, Leaf)]);
    n := Neuron(w, b);
  }

  /** `Layer(nin, nout)`: `nout` neurons of `nin` inputs, built one after the other. */
  method NewLayer(g: Graph, nin: nat, nout: nat) returns (l: Layer)
    requires g.Valid()
    modifies g
    ensures g.Valid() && Extends(old(g.nodes), g.nodes)
    ensures LayerShape(l, nin, nout) && InitialNeurons(g.nodes, l.neurons)
    ensures LayerParameters(l) == Range(|old(g.nodes)|, |g.nodes|)
  {
    ghost var g0 := g.nodes;
    var ns: seq<Neuron> := [];
    while |ns| < nout
      invariant g.Valid() && Extends(g0, g.nodes) && |ns| <= nout
      invariant forall j :: 0 <= j < |ns| ==> |ns[j].w| == nin
      invariant InitialNeurons(g.nodes, ns)
      invariant NeuronsParameters(ns) == Range(|g0|, |g.nodes|)
    {
      ghost var before := g.nodes;
      var n := NewNeuron(g, nin);
      InitialNeuronsExtends(before, g.nodes, ns);
      NeuronsParametersSnoc(ns, n);
      RangeSplit(|g0|, |before|, |g.nodes|);
      ExtendsTrans(g0, before, g.nodes);
      ns := ns + [n];
    }
    l := Layer(ns);
  }

  /** `MLP(nin, nouts)`: with `sz = [nin] + nouts`, one layer from `sz[i]` to
      `sz[i + 1]` per entry of `nouts`, built in order. */
  method NewMLP(g: Graph, nin: nat, nouts: seq<nat>) returns (m: MLP)
    requires g.Valid()
    modifies g
    ensures g.Valid() && Extends(old(g.nodes), g.nodes)
    ensures MLPShape(m, nin, nouts)
    ensures forall i :: 0 <= i < |m.layers| ==> InitialNeurons(g.nodes, m.layers[i].neurons)
    ensures MLPParameters(m) == Range(|old(g.nodes)|, |g.nodes|)
  {
    ghost var g0 := g.nodes;
    var sz := [nin] + nouts;
    var ls: seq<Layer> := [];
    while |ls| < |nouts|
      invariant g.Valid() && Extends(g0, g.nodes) && |ls| <= |nouts|
      invariant forall i :: 0 <= i < |ls| ==> LayerShape(ls[i], sz[i], sz[i + 1])
      invariant forall i :: 0 <= i < |ls| ==> InitialNeurons(g.nodes, ls[i].neurons)
      invariant LayersParameters(ls) == Range(|g0|, |g.nodes|)
    {
      ghost var before := g.nodes;
      var l := NewLayer(g, sz[|ls|], sz[|ls| + 1]);
      forall i | 0 <= i < |ls| ensures InitialNeurons(g.nodes, ls[i].neurons) {
        InitialNeuronsExtends(before, g.nodes, ls[i].neurons);
      }
      LayersParametersSnoc(ls, l);
      RangeSplit(|g0|, |before|, |g.nodes|);
      ExtendsTrans(g0, before, g.nodes);
      ls := ls + [l];
    }
    m := MLP(ls);
  }

  /** `Module.zero_grad()`, which only `Neuron` inherits: the gradient of every
      parameter becomes 0 and nothing else changes. */
  method ZeroGrad(g: Graph, n: Neuron)
    requires g.Valid() && NeuronIn(|g.nodes|, n)
    modifies g
    ensures g.Valid() && |g.nodes| == |old(g.nodes)|
    ensures forall v :: 0 <= v < |g.nodes| ==>
      g.nodes[v] == if v in NeuronParameters(n) then old(g.nodes)[v].(grad := 0.0) else old(g.nodes)[v]
  {
    var ps := NeuronParameters(n);
    for i := 0 to |ps|
      invariant g.Valid() && |g.nodes| == |old(g.nodes)|
      invariant forall v :: 0 <= v < |g.nodes| ==>
        g.nodes[v] == if v in ps[..i] then old(g.nodes)[v].(grad := 0.0) else old(g.nodes)[v]
    {
      var p := ps[i];
      ghost var before := g.nodes;
      g.nodes := g.nodes[p := g.nodes[p].(grad := 0.0)];
      assert ps[..i + 1] == ps[..i] + [p];
      assert SameValues(before, g.nodes);
    }
    assert ps[..|ps|] == ps;
  }

  // ---------------------------------------------------------------------
  // Calls

  predicate OperandsIn(size: nat, xs: seq<Operand>)
  {
    forall i :: 0 <= i < |xs| ==> (xs[i].Val? ==> xs[i].id < size)
  }

  predicate SignalIn(size: nat, x: Signal)
  {
    match x
    case Many(xs) => OperandsIn(size, xs)
    case Single(id) => id < size
  }

  /** The numbers a list of inputs stands for. */
  function ReadAll(g: Arena, xs: seq<Operand>): seq<real>
    requires OperandsIn(|g|, xs)
  {
    seq(|xs|, i requires 0 <= i < |xs| => OperandValue(g, xs[i]))
  }

  function Read(g: Arena, x: Signal): Reading
    requires SignalIn(|g|, x)
  {
    match x
    case Many(xs) => Numbers(ReadAll(g, xs))
    case Single(id) => Number(g[id].data)
  }

  /** The numbers the outcome of a call stands for. */
  function Output(g: Arena, r: Result<Signal>): Result<Reading>
    requires r.Ok? ==> SignalIn(|g|, r.value)
  {
    match r
    case Ok(x) => Ok(Read(g, x))
    case Err(e) => Err(e)
  }

  /** Every number of the reading lies strictly between -1 and 1. */
  predicate Bounded(x: Reading)
  {
    match x
    case Number(v) => -1.0 < v < 1.0
    case Numbers(vs) => forall i :: 0 <= i < |vs| ==> -1.0 < vs[i] < 1.0
  }

  /** The weighted sum of the first `m` pairs of `zip(w, xs)`. */
  function Dot(g: Arena, n: Neuron, xs: seq<real>, m: nat): real
    requires NeuronIn(|g|, n) && m <= |n.w| && m <= |xs|
  {
    if m == 0 then 0.0 else Dot(g, n, xs, m - 1) + Times(g[n.w[m - 1]].data, xs[m - 1])
  }

  /** What `Neuron.__call__` returns on the numbers `xs`: tanh of the bias
      plus the weighted sum over `zip(w, xs)`, which stops at the shorter list. */
  function NeuronValue(g: Arena, n: Neuron, xs: seq<real>, exp: real -> real): (y: real)
    requires NeuronIn(|g|, n) && PositiveExp(exp)
    ensures -1.0 < y < 1.0
  {
    TanhOf(exp(2.0 * (g[n.b].data + Dot(g, n, xs, Min(|n.w|, |xs|)))))
  }

  /** What each neuron of a list returns on the numbers `xs`, in order. */
  function NeuronValues(g: Arena, ns: seq<Neuron>, xs: seq<real>, exp: real -> real): seq<real>
    requires forall j :: 0 <= j < |ns| ==> NeuronIn(|g|, ns[j])
    requires PositiveExp(exp)
  {
    seq(|ns|, j requires 0 <= j < |ns| => NeuronValue(g, ns[j], xs, exp))
  }

  /** What `Layer.__call__` returns: a single Value fails in `zip` as soon as
      a neuron is called; otherwise each neuron's output, in neuron order,
      with a one-neuron layer returning its output alone. */
  function LayerValue(g: Arena, l: Layer, x: Reading, exp: real -> real): (r: Result<Reading>)
    requires LayerIn(|g|, l) && PositiveExp(exp)
    ensures r.Err? <==> x.Number? && |l.neurons| > 0
    ensures r.Err? ==> r.error == NotIterable
    ensures r.Ok? ==> (r.value.Number? <==> |l.neurons| == 1) && Bounded(r.value)
    ensures r.Ok? && r.value.Numbers? ==> |r.value.vs| == |l.neurons|
  {
    if x.Number? && |l.neurons| > 0 then Err(NotIterable)
    else
      var ys := NeuronValues(g, l.neurons, if x.Numbers? then x.vs else [], exp);
      if |ys| == 1 then Ok(Number(ys[0])) else Ok(Numbers(ys))
  }

  /** What `MLP.__call__` returns: each layer's output fed to the next, in order. */
  function MLPValue(g: Arena, ls: seq<Layer>, x: Reading, exp: real -> real): Result<Reading>
    requires forall i :: 0 <= i < |ls| ==> LayerIn(|g|, ls[i])
    requires PositiveExp(exp)
    decreases |ls|
  {
    if |ls| == 0 then Ok(x)
    else
      match LayerValue(g, ls[0], x, exp)
      case Err(e) => Err(e)
      case Ok(y) => MLPValue(g, ls[1..], y, exp)
  }

  /** Some layer with neurons is handed a single Value: the input itself at
      the first layer, or the output of a one-neuron layer before it. */
  ghost predicate Blocked(ls: seq<Layer>, single: bool)
  {
    exists i :: 0 <= i < |ls| && |ls[i].neurons| > 0 && HandedSingle(ls, i, single)
  }

  /** Layer `i` receives a single Value. */
  predicate HandedSingle(ls: seq<Layer>, i: nat, single: bool)
    requires i < |ls|
  {
    if i == 0 then single else |ls[i - 1].neurons| == 1
  }

  lemma BlockedTail(ls: seq<Layer>, single: bool)
    requires |ls| > 0
    ensures Blocked(ls, single) <==>
      (|ls[0].neurons| > 0 && single) || Blocked(ls[1..], |ls[0].neurons| == 1)
  {
    if |ls[0].neurons| > 0 && single {
      assert |ls[0].neurons| > 0 && HandedSingle(ls, 0, single);
    } else if Blocked(ls, single) {
      BlockedLater(ls, single);
    }
    if Blocked(ls[1..], |ls[0].neurons| == 1) {
      BlockedShift(ls, single);
    }
  }

  lemma BlockedLater(ls: seq<Layer>, single: bool)
    requires |ls| > 0 && Blocked(ls, single) && !(|ls[0].neurons| > 0 && single)
    ensures Blocked(ls[1..], |ls[0].neurons| == 1)
  {
    var rest := ls[1..];
    var i :| 0 <= i < |ls| && |ls[i].neurons| > 0 && HandedSingle(ls, i, single);
    assert rest[i - 1] == ls[i];
    if i > 1 {
      assert rest[i - 2] == ls[i - 1];
    }
    assert |rest[i - 1].neurons| > 0 && HandedSingle(rest, i - 1, |ls[0].neurons| == 1);
  }

  lemma BlockedShift(ls: seq<Layer>, single: bool)
    requires |ls| > 0 && Blocked(ls[1..], |ls[0].neurons| == 1)
    ensures Blocked(ls, single)
  {
    var rest := ls[1..];
    var i :| 0 <= i < |rest| && |rest[i].neurons| > 0 && HandedSingle(rest, i, |ls[0].neurons| == 1);
    assert rest[i] == ls[i + 1];
    if i > 0 {
      assert rest[i - 1] == ls[i];
    }
    assert |ls[i + 1].neurons| > 0 && HandedSingle(ls, i + 1, single);
  }

  /** A network call fails exactly when some layer with neurons is handed a
      single Value, and then with the `zip` error. */
  lemma {:induction false} MLPFails(g: Arena, ls: seq<Layer>, x: Reading, exp: real -> real)
    requires forall i :: 0 <= i < |ls| ==> LayerIn(|g|, ls[i])
    requires PositiveExp(exp)
    ensures MLPValue(g, ls, x, exp).Err? <==> Blocked(ls, x.Number?)
    ensures MLPValue(g, ls, x, exp).Err? ==> MLPValue(g, ls, x, exp).error == NotIterable
    decreases |ls|
  {
    if |ls| > 0 {
      BlockedTail(ls, x.Number?);
      var r := LayerValue(g, ls[0], x, exp);
      if r.Ok? {
        MLPFails(g, ls[1..], r.value, exp);
      }
    }
  }

  /** A network with at least one layer returns numbers strictly between -1 and 1. */
  lemma {:induction false} MLPBounded(g: Arena, ls: seq<Layer>, x: Reading, exp: real -> real)
    requires forall i :: 0 <= i < |ls| ==> LayerIn(|g|, ls[i])
    requires PositiveExp(exp) && |ls| > 0 && MLPValue(g, ls, x, exp).Ok?
    ensures Bounded(MLPValue(g, ls, x, exp).value)
    decreases |ls|
  {
    var r := LayerValue(g, ls[0], x, exp);
    if |ls| > 1 {
      MLPBounded(g, ls[1..], r.value, exp);
    }
  }

  lemma {:induction false} DotExtends(g: Arena, h: Arena, n: Neuron, xs: seq<real>, m: nat)
    requires Extends(g, h) && NeuronIn(|g|, n) && m <= |n.w| && m <= |xs|
    ensures NeuronIn(|h|, n) && Dot(g, n, xs, m) == Dot(h, n, xs, m)
    decreases m
  {
    if m > 0 {
      DotExtends(g, h, n, xs, m - 1);
      ExtendsAt(g, h, n.w[m - 1]);
    }
  }

  lemma NeuronValueExtends(g: Arena, h: Arena, n: Neuron, xs: seq<real>, exp: real -> real)
    requires Extends(g, h) && NeuronIn(|g|, n) && PositiveExp(exp)
    ensures NeuronIn(|h|, n) && NeuronValue(g, n, xs, exp) == NeuronValue(h, n, xs, exp)
  {
    DotExtends(g, h, n, xs, Min(|n.w|, |xs|));
    ExtendsAt(g, h, n.b);
  }

  /** Appending nodes changes no layer's outputs: they depend only on the parameters. */
  lemma LayerValueExtends(g: Arena, h: Arena, l: Layer, x: Reading, exp: real -> real)
    requires Extends(g, h) && LayerIn(|g|, l) && PositiveExp(exp)
    ensures LayerIn(|h|, l) && LayerValue(g, l, x, exp) == LayerValue(h, l, x, exp)
  {
    var xs := if x.Numbers? then x.vs else [];
    forall j | 0 <= j < |l.neurons|
      ensures NeuronIn(|h|, l.neurons[j]) && NeuronValue(g, l.neurons[j], xs, exp) == NeuronValue(h, l.neurons[j], xs, exp)
    {
      NeuronValueExtends(g, h, l.neurons[j], xs, exp);
    }
    assert NeuronValues(g, l.neurons, xs, exp) == NeuronValues(h, l.neurons, xs, exp);
  }

  lemma ReadExtends(g: Arena, h: Arena, x: Signal)
    requires Extends(g, h) && SignalIn(|g|, x)
    ensures SignalIn(|h|, x) && Read(g, x) == Read(h, x)
  {
    match x
    case Single(id) =>
      ExtendsAt(g, h, id);
    case Many(xs) =>
      forall i | 0 <= i < |xs| && xs[i].Val? ensures h[xs[i].id] == g[xs[i].id] {
        ExtendsAt(g, h, xs[i].id);
      }
      assert ReadAll(g, xs) == ReadAll(h, xs);
  }

  // ---------------------------------------------------------------------
  // The nodes a call builds

  /** One step `act + wi * xi` of the sum on arena `h`: `xi` lifted, then the
      product node, then the node adding the product to `act`; and that last node. */
  function SumStep(h: Arena, act: nat, wi: nat, xi: Operand): (Arena, nat)
    requires act < |h| && wi < |h| && (xi.Val? ==> xi.id < |h|)
  {
    var prod := Times(h[wi].data, OperandValue(h, xi));
    var p := |h| + |Lifted(xi)|;
    var extra := Lifted(xi) + [Node(prod, 0.0, MulOp(wi, OperandId(|h|, xi))), Node(h[act].data + prod, 0.0, AddOp(act, p))];
    (h + extra, p + 1)
  }

  /** The arena after the first `m` steps of `sum((wi * xi for wi, xi in
      zip(w, xs)), b)`, and the node of the running sum, which starts at the bias. */
  function Summed(g: Arena, n: Neuron, xs: seq<Operand>, m: nat): (s: (Arena, nat))
    requires NeuronIn(|g|, n) && OperandsIn(|g|, xs) && m <= |n.w| && m <= |xs|
    ensures Extends(g, s.0) && s.1 < |s.0|
    decreases m
  {
    if m == 0 then (g, n.b)
    else
      var prev := Summed(g, n, xs, m - 1);
      var next := SumStep(prev.0, prev.1, n.w[m - 1], xs[m - 1]);
      ExtendsTrans(g, prev.0, next.0);
      next
  }

  /** The running sum holds the bias plus `w[0] * x[0] + ... + w[m-1] * x[m-1]`. */
  lemma {:induction false} SummedValue(g: Arena, n: Neuron, xs: seq<Operand>, m: nat)
    requires NeuronIn(|g|, n) && OperandsIn(|g|, xs) && m <= |n.w| && m <= |xs|
    ensures Summed(g, n, xs, m).0[Summed(g, n, xs, m).1].data == g[n.b].data + Dot(g, n, ReadAll(g, xs), m)
    decreases m
  {
    if m == 0 {
    } else {
      SummedValue(g, n, xs, m - 1);
      SummedNext(g, n, xs, m);
      assert Dot(g, n, ReadAll(g, xs), m) ==
        Dot(g, n, ReadAll(g, xs), m - 1) + Times(g[n.w[m - 1]].data, ReadAll(g, xs)[m - 1]);
    }
  }

  /** Step `m` of the sum adds `w[m-1] * x[m-1]`, read on the original arena, to the running sum. */
  lemma SummedNext(g: Arena, n: Neuron, xs: seq<Operand>, m: nat)
    requires NeuronIn(|g|, n) && OperandsIn(|g|, xs) && 0 < m <= |n.w| && m <= |xs|
    ensures Summed(g, n, xs, m).0[Summed(g, n, xs, m).1].data ==
      Summed(g, n, xs, m - 1).0[Summed(g, n, xs, m - 1).1].data + Times(g[n.w[m - 1]].data, ReadAll(g, xs)[m - 1])
  {
    var prev := Summed(g, n, xs, m - 1);
    WeightInput(g, prev.0, n, xs, m - 1);
    assert Summed(g, n, xs, m) == SumStep(prev.0, prev.1, n.w[m - 1], xs[m - 1]);
  }

  /** The arena after `Neuron.__call__` on a list, and its output node: the
      weighted sum over `zip(w, xs)`, then its `tanh`. */
  function Fired(g: Arena, n: Neuron, xs: seq<Operand>, exp: real -> real): (s: (Arena, nat))
    requires NeuronIn(|g|, n) && OperandsIn(|g|, xs) && PositiveExp(exp)
    ensures Extends(g, s.0) && s.1 < |s.0|
  {
    var sum := Summed(g, n, xs, Min(|n.w|, |xs|));
    var s := Activated(sum.0, sum.1, exp);
    ExtendsTrans(g, sum.0, s.0);
    s
  }

  /** `act.tanh()` on arena `h`, and its node. */
  function Activated(h: Arena, act: nat, exp: real -> real): (Arena, nat)
    requires act < |h| && PositiveExp(exp)
  {
    (h + [Node(TanhOf(exp(2.0 * h[act].data)), 0.0, TanhOp(act))], |h|)
  }

  /** The output node of a called neuron is the `tanh` of its running sum. */
  lemma FiredNode(g: Arena, n: Neuron, xs: seq<Operand>, exp: real -> real)
    requires NeuronIn(|g|, n) && OperandsIn(|g|, xs) && PositiveExp(exp)
    ensures var sum := Summed(g, n, xs, Min(|n.w|, |xs|));
      Fired(g, n, xs, exp).0[Fired(g, n, xs, exp).1] == Node(TanhOf(exp(2.0 * sum.0[sum.1].data)), 0.0, TanhOp(sum.1))
  {
    var sum := Summed(g, n, xs, Min(|n.w|, |xs|));
    assert Fired(g, n, xs, exp) == Activated(sum.0, sum.1, exp);
  }

  /** A called neuron outputs `tanh` of the weighted sum, as `NeuronValue` says. */
  lemma FiredValue(g: Arena, n: Neuron, xs: seq<Operand>, exp: real -> real)
    requires NeuronIn(|g|, n) && OperandsIn(|g|, xs) && PositiveExp(exp)
    ensures Fired(g, n, xs, exp).0[Fired(g, n, xs, exp).1].data == NeuronValue(g, n, ReadAll(g, xs), exp)
    ensures Fired(g, n, xs, exp).0[Fired(g, n, xs, exp).1].op == TanhOp(Summed(g, n, xs, Min(|n.w|, |xs|)).1)
  {
    var sum := Summed(g, n, xs, Min(|n.w|, |xs|));
    FiredNode(g, n, xs, exp);
    SummedValue(g, n, xs, Min(|n.w|, |xs|));
    NeuronValueSum(g, n, xs, exp, sum.0[sum.1].data);
  }

  /** `NeuronValue` is `tanh` of any number equal to the bias plus the weighted sum. */
  lemma NeuronValueSum(g: Arena, n: Neuron, xs: seq<Operand>, exp: real -> real, a: real)
    requires NeuronIn(|g|, n) && OperandsIn(|g|, xs) && PositiveExp(exp)
    requires a == g[n.b].data + Dot(g, n, ReadAll(g, xs), Min(|n.w|, |xs|))
    ensures TanhOf(exp(2.0 * a)) == NeuronValue(g, n, ReadAll(g, xs), exp)
  {
    assert |ReadAll(g, xs)| == |xs|;
  }

  /** Each output of a call of every neuron in `ns` holds that neuron's value on the inputs. */
  lemma {:induction false} CalledValues(g: Arena, ns: seq<Neuron>, xs: seq<Operand>, exp: real -> real)
    requires LayerIn(|g|, Layer(ns)) && OperandsIn(|g|, xs) && PositiveExp(exp)
    ensures forall i :: 0 <= i < |ns| ==> (Called(g, ns, xs, exp).1[i] < |Called(g, ns, xs, exp).0| &&
      Called(g, ns, xs, exp).0[Called(g, ns, xs, exp).1[i]].data == NeuronValue(g, ns[i], ReadAll(g, xs), exp))
    decreases |ns|
  {
    if |ns| > 0 {
      var init, last := ns[..|ns| - 1], ns[|ns| - 1];
      CalledValues(g, init, xs, exp);
      var prev := Called(g, init, xs, exp);
      var fired := Fired(prev.0, last, xs, exp);
      FiredValue(prev.0, last, xs, exp);
      CallFrame(g, prev.0, last, Many(xs), exp);
      assert Called(g, ns, xs, exp) == (fired.0, prev.1 + [fired.1]);
      forall i | 0 <= i < |ns|
        ensures (prev.1 + [fired.1])[i] < |fired.0| &&
          fired.0[(prev.1 + [fired.1])[i]].data == NeuronValue(g, ns[i], ReadAll(g, xs), exp)
      {
        if i < |init| {
          ExtendsAt(prev.0, fired.0, prev.1[i]);
          assert init[i] == ns[i];
        } else {
          assert ns[i] == last && (prev.1 + [fired.1])[i] == fired.1;
        }
      }
    }
  }

  /** The arena after `[n(x) for n in ns]` on a list, and the outputs in order. */
  function Called(g: Arena, ns: seq<Neuron>, xs: seq<Operand>, exp: real -> real): (s: (Arena, seq<nat>))
    requires LayerIn(|g|, Layer(ns)) && OperandsIn(|g|, xs) && PositiveExp(exp)
    ensures Extends(g, s.0) && |s.1| == |ns|
    decreases |ns|
  {
    if |ns| == 0 then (g, [])
    else
      var prev := Called(g, ns[..|ns| - 1], xs, exp);
      var fired := Fired(prev.0, ns[|ns| - 1], xs, exp);
      ExtendsTrans(g, prev.0, fired.0);
      (fired.0, prev.1 + [fired.1])
  }

  /** `outs[0] if len(outs) == 1 else outs`. */
  function Gathered(outs: seq<nat>): Signal
  {
    if |outs| == 1 then Single(outs[0]) else Many(seq(|outs|, i requires 0 <= i < |outs| => Val(outs[i])))
  }

  /** `Neuron.__call__(x)`: for a list, `b + w[0] * x[0] + w[1] * x[1] + ...`
      summed from the left over `zip(w, x)`, then `tanh`; a single Value
      fails in `zip` before any node is built. */
  method NeuronCall(g: Graph, n: Neuron, x: Signal, exp: real -> real) returns (r: Result<nat>)
    requires g.Valid() && NeuronIn(|g.nodes|, n) && SignalIn(|g.nodes|, x) && PositiveExp(exp)
    modifies g
    ensures g.Valid() && Extends(old(g.nodes), g.nodes)
    ensures x.Single? ==> r == Err(NotIterable) && g.nodes == old(g.nodes)
    ensures x.Many? ==> r == Ok(Fired(old(g.nodes), n, x.xs, exp).1) && g.nodes == Fired(old(g.nodes), n, x.xs, exp).0
    ensures x.Many? ==> g.nodes[r.value].data == NeuronValue(old(g.nodes), n, ReadAll(old(g.nodes), x.xs), exp)
  {
    if x.Single? {
      return Err(NotIterable);
    }
    var act := WeightedSum(g, n, x.xs);
    ghost var sum := g.nodes;
    var out := g.Tanh(act, exp);
    assert (g.nodes, out) == Activated(sum, act, exp);
    r := Ok(out);
    FiredValue(old(g.nodes), n, x.xs, exp);
  }

  /** `act = sum((wi * xi for wi, xi in zip(w, xs)), b)`: one product node and
      one sum node per pair, starting from the bias. */
  method WeightedSum(g: Graph, n: Neuron, xs: seq<Operand>) returns (act: nat)
    requires g.Valid() && NeuronIn(|g.nodes|, n) && OperandsIn(|g.nodes|, xs)
    modifies g
    ensures g.Valid() && (g.nodes, act) == Summed(old(g.nodes), n, xs, Min(|n.w|, |xs|))
    ensures g.nodes[act].data ==
      old(g.nodes)[n.b].data + Dot(old(g.nodes), n, ReadAll(old(g.nodes), xs), Min(|n.w|, |xs|))
  {
    ghost var g0 := g.nodes;
    act := n.b;
    var m: nat := 0;
    while m < |n.w| && m < |xs|
      invariant g.Valid() && m <= |n.w| && m <= |xs|
      invariant (g.nodes, act) == Summed(g0, n, xs, m)
      decreases |n.w| - m
    {
      act := AddProduct(g, act, n.w[m], xs[m]);
      m := m + 1;
    }
    assert m == Min(|n.w|, |xs|);
    SummedValue(g0, n, xs, m);
  }

  /** One step of the sum: `act + wi * xi`. */
  method AddProduct(g: Graph, act: nat, wi: nat, xi: Operand) returns (next: nat)
    requires g.Valid() && act < |g.nodes| && wi < |g.nodes| && (xi.Val? ==> xi.id < |g.nodes|)
    modifies g
    ensures g.Valid() && (g.nodes, next) == SumStep(old(g.nodes), act, wi, xi)
  {
    var p := g.Mul(wi, xi);
    ghost var mid := g.nodes;
    ExtendsAt(old(g.nodes), mid, act);
    next := g.Add(act, Val(p));
    ghost var h := old(g.nodes);
    ghost var prod := Times(h[wi].data, OperandValue(h, xi));
    assert p == |h| + |Lifted(xi)| && mid[p].data == prod && mid[act].data == h[act].data;
    assert Lifted(Val(p)) == [] && OperandValue(mid, Val(p)) == mid[p].data && OperandId(|mid|, Val(p)) == p;
    assert g.nodes == h + (Lifted(xi) + [Node(prod, 0.0, MulOp(wi, OperandId(|h|, xi))), Node(h[act].data + prod, 0.0, AddOp(act, p))]);
  }

  /** The weight and the input of the `m`-th pair keep their numbers as the arena grows. */
  lemma WeightInput(g: Arena, h: Arena, n: Neuron, xs: seq<Operand>, m: nat)
    requires Extends(g, h) && NeuronIn(|g|, n) && OperandsIn(|g|, xs) && m < |n.w| && m < |xs|
    ensures n.w[m] < |h| && h[n.w[m]].data == g[n.w[m]].data
    ensures OperandsIn(|h|, xs) && OperandValue(h, xs[m]) == ReadAll(g, xs)[m]
  {
    ExtendsAt(g, h, n.w[m]);
    if xs[m].Val? {
      ExtendsAt(g, h, xs[m].id);
    }
  }

  /** `Layer.__call__(x)`: each neuron called on `x`, in order; a layer of one
      neuron returns that neuron's output alone. */
  method LayerCall(g: Graph, l: Layer, x: Signal, exp: real -> real) returns (r: Result<Signal>)
    requires g.Valid() && LayerIn(|g.nodes|, l) && SignalIn(|g.nodes|, x) && PositiveExp(exp)
    modifies g
    ensures g.Valid() && Extends(old(g.nodes), g.nodes)
    ensures r.Ok? ==> SignalIn(|g.nodes|, r.value)
    ensures Output(g.nodes, r) == LayerValue(old(g.nodes), l, Read(old(g.nodes), x), exp)
    ensures x.Single? ==> g.nodes == old(g.nodes)
    ensures x.Many? ==> (g.nodes == Called(old(g.nodes), l.neurons, x.xs, exp).0 &&
      r == Ok(Gathered(Called(old(g.nodes), l.neurons, x.xs, exp).1)))
  {
    ghost var ys := NeuronValues(g.nodes, l.neurons, Inputs(g.nodes, x), exp);
    assert Read(g.nodes, x).Numbers? ==> Read(g.nodes, x).vs == Inputs(g.nodes, x);
    var outs := CallEach(g, l.neurons, x, exp);
    if outs.Err? {
      return Err(outs.error);
    }
    r := Ok(Gathered(outs.value));
    if |outs.value| != 1 {
      assert ReadAll(g.nodes, r.value.xs) == ys;
    } else {
      assert Read(g.nodes, r.value) == Number(ys[0]);
    }
  }

  /** The numbers a neuron reads from a signal; a single Value is never read. */
  function Inputs(g: Arena, x: Signal): seq<real>
    requires SignalIn(|g|, x)
  {
    if x.Many? then ReadAll(g, x.xs) else []
  }

  /** `[n(x) for n in self.neurons]`: every neuron called on `x`, in order. */
  method CallEach(g: Graph, ns: seq<Neuron>, x: Signal, exp: real -> real) returns (r: Result<seq<nat>>)
    requires g.Valid() && LayerIn(|g.nodes|, Layer(ns)) && SignalIn(|g.nodes|, x) && PositiveExp(exp)
    modifies g
    ensures g.Valid() && Extends(old(g.nodes), g.nodes)
    ensures r.Err? <==> x.Single? && |ns| > 0
    ensures r.Err? ==> r.error == NotIterable
    ensures r.Ok? ==> |r.value| == |ns| && forall i :: 0 <= i < |ns| ==>
      r.value[i] < |g.nodes| && g.nodes[r.value[i]].data == NeuronValues(old(g.nodes), ns, Inputs(old(g.nodes), x), exp)[i]
    ensures x.Single? ==> g.nodes == old(g.nodes)
    ensures x.Many? ==> r == Ok(Called(old(g.nodes), ns, x.xs, exp).1) && g.nodes == Called(old(g.nodes), ns, x.xs, exp).0
  {
    ghost var g0 := g.nodes;
    var outs: seq<nat> := [];
    for j := 0 to |ns|
      invariant g.Valid() && |outs| == j
      invariant x.Single? ==> j == 0 && g.nodes == g0
      invariant x.Many? ==> (g.nodes, outs) == Called(g0, ns[..j], x.xs, exp)
    {
      var o := NeuronCall(g, ns[j], x, exp);
      if o.Err? {
        return Err(o.error);
      }
      assert ns[..j + 1][..j] == ns[..j] && ns[..j + 1][j] == ns[j];
      outs := outs + [o.value];
    }
    r := Ok(outs);
    if x.Many? {
      assert ns[..|ns|] == ns;
      assert g.nodes == Called(g0, ns, x.xs, exp).0 && outs == Called(g0, ns, x.xs, exp).1;
      CalledOutputs(g0, ns, x, exp);
    } else {
      assert |ns| == 0;
    }
  }

  /** `CalledValues` in the terms of `CallEach`'s contract. */
  lemma CalledOutputs(g: Arena, ns: seq<Neuron>, x: Signal, exp: real -> real)
    requires LayerIn(|g|, Layer(ns)) && SignalIn(|g|, x) && PositiveExp(exp) && x.Many?
    ensures forall i :: 0 <= i < |ns| ==> (Called(g, ns, x.xs, exp).1[i] < |Called(g, ns, x.xs, exp).0| &&
      Called(g, ns, x.xs, exp).0[Called(g, ns, x.xs, exp).1[i]].data == NeuronValues(g, ns, Inputs(g, x), exp)[i])
  {
    CalledValues(g, ns, x.xs, exp);
    assert Inputs(g, x) == ReadAll(g, x.xs);
  }

  /** A neuron called on a grown arena computes what it computes on the original one. */
  lemma CallFrame(g: Arena, h: Arena, n: Neuron, x: Signal, exp: real -> real)
    requires Extends(g, h) && NeuronIn(|g|, n) && SignalIn(|g|, x) && PositiveExp(exp)
    ensures NeuronIn(|h|, n) && SignalIn(|h|, x)
    ensures x.Many? ==> (ReadAll(h, x.xs) == ReadAll(g, x.xs) &&
      NeuronValue(h, n, ReadAll(g, x.xs), exp) == NeuronValue(g, n, ReadAll(g, x.xs), exp))
  {
    ReadExtends(g, h, x);
    NeuronValueExtends(g, h, n, if x.Many? then ReadAll(g, x.xs) else [], exp);
  }

  /** `MLP.__call__(x)`: `x = layer(x)` for each layer in order, then `x`. */
  method MLPCall(g: Graph, m: MLP, x: Signal, exp: real -> real) returns (r: Result<Signal>)
    requires g.Valid() && MLPIn(|g.nodes|, m) && SignalIn(|g.nodes|, x) && PositiveExp(exp)
    modifies g
    ensures g.Valid() && Extends(old(g.nodes), g.nodes)
    ensures r.Ok? ==> SignalIn(|g.nodes|, r.value)
    ensures Output(g.nodes, r) == MLPValue(old(g.nodes), m.layers, Read(old(g.nodes), x), exp)
  {
    ghost var g0 := g.nodes;
    var y := x;
    for i := 0 to |m.layers|
      invariant g.Valid() && Extends(g0, g.nodes) && SignalIn(|g.nodes|, y)
      invariant MLPValue(g0, m.layers, Read(g0, x), exp) == MLPValue(g0, m.layers[i..], Read(g.nodes, y), exp)
    {
      ghost var before := g.nodes;
      var layer := m.layers[i];
      assert m.layers[i..][0] == layer && m.layers[i..][1..] == m.layers[i + 1..];
      LayerValueExtends(g0, before, layer, Read(before, y), exp);
      var o := LayerCall(g, layer, y, exp);
      ExtendsTrans(g0, before, g.nodes);
      if o.Err? {
        return Err(o.error);
      }
      y := o.value;
    }
    assert m.layers[|m.layers|..] == [];
    r := Ok(y);
  }
}
