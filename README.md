# micrograd in Dafny

A model of micrograd, a scalar reverse-mode automatic differentiation engine, and of the small neural-network library built on it.

## The engine

The `Value` objects of `engine.py` live in an arena:
- a `Graph` object owns a sequence of node records `Node(data, grad, op)`;
- a `Value` is the index of its node;
- `op` records how the node was made (`Leaf`, `AddOp`, `MulOp`, `PowOp`, `TanhOp`, `ExpOp`) and the indices of its operands.

Every operation appends the nodes it creates. Operands therefore always have smaller indices than their node, so the graph is acyclic by construction (`Values.WellFormed`).

The `_backward` closure of a node is modelled as `Engine.Graph.Propagate`. It does one of two things:
- adds the node's local derivative times the node's gradient into each operand's gradient; an operand used twice, as in `a + a`, receives it twice;
- raises the exception the closure raises, leaving the arena unchanged.

`Engine.Graph.Backward` models `backward()` in three steps:
- builds the post-order list with the recursive depth-first `BuildTopo`;
- overwrites the root's gradient with 1.0;
- runs every listed node's step once, in reverse order (`Sweep`).

Its contract compares the outcome with a reference definition, `Values.Adjoint`:
- the root starts from 1.0;
- every other node starts from the gradient it already holds;
- every reachable consumer `k` of `v` adds `Local(k, v) * Adjoint(k)`.

With zero initial gradients this is the chain rule for d root / d v. `Backward` proves four things:
- the list holds each reachable node exactly once, after all of its operands, with the root last;
- a pass that raises nothing leaves exactly `Adjoint` in every node;
- a pass that raises raises the fault of the last listed node that faults, the first one the reversed sweep reaches (`LastFault`);
- nodes the root does not reach keep their gradient.

## The network layer

`nn.py` is modelled in module `NN`:
- `Neuron`, `Layer` and `MLP` are values holding the indices of their parameter nodes;
- constructing and calling them are methods that append nodes to a `Graph`;
- pure functions (`NeuronValue`, `LayerValue`, `MLPValue`) say which numbers a call returns, computed from the numbers stored in the parameters.

A layer of one neuron returns that neuron's output itself, not a list of one. A later layer with neurons that receives such a single `Value` fails in `zip` (`NotIterable`), as the Python code does.

## External behaviour

Forward `tanh` and `exp` call `math.exp`, which the model receives as a parameter `exp: real -> real`. All it knows about `exp` is that its values are positive (`PositiveExp`). The random initial weights are a nondeterministic choice in [-1, 1].

## Where the model follows the code

The model follows the code in two places where one might expect floating-point or working behaviour:
- `0.0 ** n` with a negative `n` raises `ZeroDivisionError` in Python and does not produce an infinity. So the forward power (`Pow`, `Div`, `RDiv`) and the backward step of `x ** p` with `p - 1 < 0` at a zero base raise `ZeroDivision`.
- The backward closure of `exp` is declared with a parameter that `backward()` never passes. Any backward pass that reaches an `exp` node therefore raises, with the steps before it applied: `TypeError`, modelled as `BackwardArity`, unless a node the reversed sweep runs earlier raises first.

Module `GradientExamples` holds small graphs built through the operations: `a + a`, `a * b`, `a ** 2`, `tanh`, the diamond `(a + b) * (a - b)` and a leaf root. Each is proved to get the gradients the chain rule gives. It also shows that `a ** b` for a Value `b` builds nothing, that a backward pass through `exp` raises, and that for `(Value(0.0) ** 0).exp()` the pass raises the `exp` error, not the `ZeroDivision` of the power node the sweep would reach later. For `MLP(3, [4, 4, 1])` it proves the parameter count, 41, and that a call on three numbers succeeds; no gradients are computed for it.

## Model

| member | source | states |
|---|---|---|
| Values.Prev | engine.py:10 | definition, no contract: the operand set `_prev` of a node, which holds `a` once for `a + a` |
| Values.PrevBelow | engine.py:15-17 | every operand of a node in a well-formed arena was created before that node |
| Values.Power | engine.py:39 | a nonzero base raised to any integer power is nonzero |
| Values.PowerSucc | engine.py:39 | raising to `n + 1` multiplies by the base once more, for negative `n` too |
| Values.TanhOf | engine.py:48-49 | `(e - 1) / (e + 1)` for a positive `e = exp(2x)` lies strictly between -1 and 1 |
| Values.Fault | engine.py:41-64 | definition, no contract: the exception a node's backward step raises, `ZeroDivision` for a negative power of a zero base and `BackwardArity` for every `exp` node |
| Values.Local | engine.py:19-53 | the factor by which one backward step scales the node's gradient into `v` is 0 for every `v` that is not an operand |
| Values.Reach | engine.py:90-95 | the nodes `build_topo` reaches from `v` contain `v` and nothing created after `v` |
| Values.ReachUnfold | engine.py:90-94 | what `v` reaches is `v` plus what each element of `_prev` reaches |
| Values.ReachTrans | engine.py:90-95 | reachability is transitive |
| Values.ReachOperands | engine.py:93-94 | the operands of a reached node are reached |
| Values.FlowEmpty | engine.py:99-100 | with no consumers run, nothing has flowed into a node |
| Values.FlowAgree | engine.py:99-100 | two sets of run consumers give the same flow into `v` when every node in one set and not the other is not a consumer of `v` |
| Values.FlowInsertBelow | engine.py:99-100 | running a node created at or before `v` adds nothing to `v` |
| Values.FlowInsert | engine.py:99-100 | running consumer `k` adds its local derivative times its final gradient to the flow into `v` |
| Values.Seed | engine.py:98 | definition, no contract: the gradient a node starts the sweep with, 1.0 at the root (`self.grad = 1.0`) and the held gradient elsewhere |
| Values.Adjoint | engine.py:86-100 | definition, no contract: the reference gradient, the seed plus `Local(k, v) * Adjoint(k)` for every reached consumer `k` of `v`, against which `Backward` is stated |
| Values.AdjointOutside | engine.py:86-100 | a node the root does not reach must keep the gradient it had |
| Values.AdjointRoot | engine.py:98 | the root's expected gradient is exactly 1.0: no node the root reaches uses the root |
| Values.ReachSame | engine.py:19-21 | changing gradients changes no operand and hence no reachable set |
| Values.LocalSame | engine.py:19-53 | changing gradients changes neither a node's fault nor its local derivatives |
| Engine.DistinctAt | engine.py:91-92 | in a repetition-free list, two different positions hold different nodes |
| Engine.OrderedAt | engine.py:93-95 | in a topologically ordered list, each node's operands are all listed before it |
| Engine.OrderedBelow | engine.py:95 | every node of an ordered list is in the arena |
| Engine.OrderedClosed | engine.py:91-95 | an ordered list already holds everything each of its nodes reaches, so a visited node needs no walk |
| Engine.ConsumersLater | engine.py:95-100 | in the list, no node is an operand of a node at or before its own position, so the reversed sweep runs every consumer before its operands |
| Engine.AppendOrdered | engine.py:95 | appending an unlisted node whose operands are listed keeps the list ordered and repetition-free |
| Engine.VisitStart | engine.py:91-92 | marking `v` starts its walk with no child walked |
| Engine.VisitStep | engine.py:93-94 | walking one more child keeps the walk's invariant: visited and listed grow by what the child reaches, and the old list is a prefix |
| Engine.VisitFinish | engine.py:93-95 | once every child is walked, appending `v` lists exactly what `v` reaches, ordered and without repetition |
| Engine.AddStep | engine.py:19-21 | the `+` step adds `1.0 * out.grad` to each operand's gradient, twice to `a` for `a + a`, and changes nothing else |
| Engine.MulStep | engine.py:30-32 | the `*` step adds `other.data * out.grad` to `self` and `self.data * out.grad` to `other`, both to `a` for `a * a` |
| Engine.UnaryStep | engine.py:41-53 | the `**` and `tanh` steps add their local derivative times `out.grad` to their operand |
| Engine.SweepStart | engine.py:98 | before any step runs, every gradient is its seed: 1.0 at the root, the old gradient elsewhere |
| Engine.SweepAdvance | engine.py:99-100 | running the next node keeps unreached gradients, and it either records that node's fault, every node run before it having raised nothing, or keeps the sweep invariant |
| Engine.SweepFlow | engine.py:99-100 | without faults, after each step every gradient is its seed plus the flow from the nodes run so far |
| Engine.LastFault | engine.py:99-100 | definition, no contract: the error is the fault of the last node of the list that faults, every later node raising nothing |
| Engine.SweepEnd | engine.py:99-100 | at the end of the sweep, the pass raised if and only if a reached node faults, a raised error is the fault of the last faulting listed node, and if nothing was raised every gradient equals its reference value |
| Engine.BackwardStep | engine.py:19-64 | definition, no contract: the effect of one `_backward` call of node `k`: every gradient gains `Local(k, v)` times `k`'s gradient, or the fault is raised with the arena unchanged |
| Engine.Graph.NewValue | engine.py:5-10 | a new node has the given data, zero gradient and the given operands; every earlier node stays as it was |
| Engine.Graph.Lift | engine.py:16 | a Value is used as is, a number becomes a fresh leaf |
| Engine.Graph.Add | engine.py:15-24 | `self + other` appends the lifted operand and one `AddOp` node whose data is the sum; earlier nodes unchanged |
| Engine.Graph.Mul | engine.py:26-35 | `self * other` appends the lifted operand and one `MulOp` node whose data is the product; earlier nodes unchanged |
| Engine.Graph.Pow | engine.py:37-45 | a Value exponent fails the assertion and builds nothing; `0.0 ** n` with negative `n` raises; otherwise one `PowOp` node holding `x ** n` |
| Engine.Graph.Tanh | engine.py:47-56 | appends one `TanhOp` node holding `(exp(2x) - 1) / (exp(2x) + 1)` |
| Engine.Graph.Exp | engine.py:58-66 | appends one `ExpOp` node holding `exp(x)` |
| Engine.Graph.RMul | engine.py:68-69 | `x * self` builds exactly the nodes of `self * x` |
| Engine.Graph.Div | engine.py:71-72 | `self / other` is `self * other ** -1`, folding a number's power before lifting, and raises for a zero divisor |
| Engine.Graph.RDiv | engine.py:74-75 | `x / self` builds `self ** -1`, a leaf for `x` and their product, and raises for a zero `self` |
| Engine.Graph.Neg | engine.py:77-78 | `-self` builds a leaf -1 and the product `self * -1` |
| Engine.Graph.RAdd | engine.py:80-81 | `x + self` builds exactly the nodes of `self + x` |
| Engine.Graph.Sub | engine.py:83-84 | `self - other` is `self + (-other)`: a number is negated before lifting, a Value through `Neg` |
| Engine.Graph.Propagate | engine.py:19-64 | one `_backward` call adds the local derivative times the node's gradient into every operand, or raises that node's fault and changes nothing; data and operands never change |
| Engine.Graph.BuildTopo | engine.py:90-96 | after `build_topo(v)`, visited and the list's elements both grew by exactly what `v` reaches; the list extends the old one, stays repetition-free and ordered, and ends with `v` if `v` was new |
| Engine.Graph.WalkChildren | engine.py:93-94 | walking the children of `v` in any order walks every element of `_prev` |
| Engine.Graph.Sweep | engine.py:98-100 | the reversed sweep raises if and only if a reached node faults, and then raises the fault of the last faulting node of the list; it leaves unreached gradients alone, and without a fault leaves every gradient at its reference value |
| Engine.Graph.Backward | engine.py:86-100 | the list holds every reached node once, after its operands, with the root last; data and operands unchanged; the pass raises if and only if a reached node faults, and then raises the fault of the last faulting node of the list; otherwise every gradient is the reference gradient, and unreached gradients are never touched |
| NN.NeuronParameters | nn.py:22-23 | definition, no contract: a neuron's parameters are its weights in order followed by its bias |
| NN.LayerParameters | nn.py:34-36 | definition, no contract: a layer's parameters are its neurons' parameters concatenated in neuron order |
| NN.MLPParameters | nn.py:50-52 | definition, no contract: a network's parameters are its layers' parameters concatenated in layer order |
| NN.NeuronsParameterCount | nn.py:36 | neurons of `nin` weights each have `nin + 1` parameters apiece |
| NN.LayerParameterCount | nn.py:34-36 | a layer of `nout` neurons with `nin` inputs has `nout * (nin + 1)` parameters |
| NN.LayerParameterAt | nn.py:34-36 | parameter `t` of neuron `j` is at position `j * (nin + 1) + t` of the layer's list |
| NN.NeuronsParametersSnoc | nn.py:36 | one more neuron appends its parameters at the end |
| NN.LayersShapeTail | nn.py:40-41 | after the first layer of `MLP(nin, nouts)`, the rest has the shape of `MLP(nouts[0], nouts[1..])` |
| NN.LayersParametersSnoc | nn.py:52 | one more layer appends its parameters at the end |
| NN.MLPParameterCount | nn.py:50-52 | `MLP(nin, nouts)` has `ParameterCount(nin, nouts)` parameters, one layer from `a` inputs to `b` neurons adding `b * (a + 1)` |
| NN.InitialNeuronExtends | nn.py:13-15 | building further nodes leaves a built neuron's fresh state intact |
| NN.InitialNeuronsExtends | nn.py:28 | the same for every neuron of a list |
| NN.NewNeuron | nn.py:13-15 | `nin` leaf weights with zero gradient and data in [-1, 1], then a bias leaf of value 0; its parameters are exactly the nodes just built, in order |
| NN.NewLayer | nn.py:26-28 | `nout` fresh neurons of `nin` weights; the layer's parameters are exactly the nodes just built, in order |
| NN.NewMLP | nn.py:39-41 | layer `i` has `sz[i]` inputs and `sz[i + 1]` neurons with `sz = [nin] + nouts`; the parameters are exactly the nodes just built, in order |
| NN.ZeroGrad | nn.py:5-7 | the gradient of every parameter becomes 0 and nothing else in the arena changes |
| NN.ReadAll | nn.py:18 | definition, no contract: the number each input of a list stands for, in order |
| NN.Dot | nn.py:18 | definition, no contract: `w[0] * x[0] + ... + w[m-1] * x[m-1]` over the first `m` pairs of `zip(w, x)`, summed from the left |
| NN.NeuronValue | nn.py:17-20 | a neuron's output, tanh of the pre-activation, lies strictly between -1 and 1 |
| NN.NeuronValues | nn.py:31 | definition, no contract: each neuron's value on the same input, in neuron order |
| NN.LayerValue | nn.py:30-32 | a layer fails exactly when it has neurons and is handed a single Value; otherwise it returns the single number of a one-neuron layer, or a list of one number per neuron, all strictly between -1 and 1 |
| NN.MLPValue | nn.py:44-48 | definition, no contract: the input fed through each layer's `LayerValue` in order, stopping at the first failure |
| NN.BlockedTail | nn.py:46-47 | a layer sequence is blocked exactly when its first layer is blocked by its input or the rest is blocked by the first layer's output |
| NN.MLPFails | nn.py:44-48 | a network call fails, with `NotIterable`, exactly when some layer with neurons is handed a single Value |
| NN.MLPBounded | nn.py:44-48 | a network of at least one layer whose call succeeds returns numbers strictly between -1 and 1 |
| NN.DotExtends | nn.py:18 | the weighted sum depends only on the parameter nodes, which later nodes leave alone |
| NN.NeuronValueExtends | nn.py:17-20 | a neuron computes the same number after further nodes are built |
| NN.LayerValueExtends | nn.py:30-32 | a layer computes the same result after further nodes are built |
| NN.ReadExtends | nn.py:18 | an input reads the same number after further nodes are built |
| NN.SumStep | nn.py:18 | definition, no contract: one step `act + wi * xi` on an arena, which appends the lifted input, the `MulOp(wi, xi)` node and the `AddOp(act, product)` node, and returns the last |
| NN.Summed | nn.py:18 | the nodes of the first `m` steps of the sum, starting from the bias; the arena only grows and the running sum is one of its nodes |
| NN.SummedValue | nn.py:18 | the running sum after `m` steps holds the bias plus the weighted sum of the first `m` pairs |
| NN.SummedNext | nn.py:18 | step `m` of the sum adds `w[m-1] * x[m-1]`, read on the arena the call started from, to the running sum |
| NN.Activated | nn.py:19 | definition, no contract: `act.tanh()` on an arena, which appends one `TanhOp(act)` node with zero gradient and returns it |
| NN.Fired | nn.py:17-20 | the nodes a neuron call on a list builds: the sum over `zip(w, x)`, then its `tanh`; the arena only grows |
| NN.FiredNode | nn.py:18-19 | the output node of a neuron call is the `TanhOp` node of the running sum, with zero gradient |
| NN.FiredValue | nn.py:17-20 | the output node of a neuron call holds `NeuronValue` of the inputs and is the `tanh` of the running sum |
| NN.NeuronValueSum | nn.py:17-20 | `NeuronValue` is `tanh` of the bias plus the weighted sum over `zip(w, x)` |
| NN.NeuronCall | nn.py:17-20 | a single Value fails in `zip` and builds nothing; a list appends exactly the nodes of `Fired` (lifted inputs, a product and a sum node per pair, then one `TanhOp` node) and returns that last node, which holds the neuron's value on the inputs, truncated to the shorter of `w` and `x` |
| NN.WeightedSum | nn.py:18 | appends exactly the nodes of `Summed` over `zip(w, x)`, so an empty zip appends nothing and returns the bias, and the returned sum node holds `b.data + w[0]*x[0] + ...` |
| NN.AddProduct | nn.py:18 | one summation step appends exactly the lifted input, a `MulOp(wi, xi)` node and an `AddOp(act, product)` node holding `act + wi * xi`, and returns the last |
| NN.WeightInput | nn.py:18 | the `m`-th weight and input keep their numbers as the sum builds nodes |
| NN.Called | nn.py:31 | the nodes `[n(x) for n in ns]` builds on a list, neuron after neuron, and the outputs in order; the arena only grows and there is one output per neuron |
| NN.CalledValues | nn.py:31 | output `i` of `Called` is a node of the final arena holding neuron `i`'s value on the inputs |
| NN.CalledOutputs | nn.py:31 | the same, stated for the numbers `NeuronValues` gives on the signal |
| NN.Gathered | nn.py:32 | definition, no contract: `outs[0] if len(outs) == 1 else outs` |
| NN.CallEach | nn.py:31 | calling every neuron on a single Value fails if there is a neuron and builds nothing; on a list it appends exactly the nodes of `Called` and returns its outputs, which hold each neuron's value in neuron order |
| NN.CallFrame | nn.py:31 | a neuron called later in the layer computes what it computes on the arena the layer started from |
| NN.LayerCall | nn.py:30-32 | the numbers the layer returns are exactly `LayerValue` of its input; a single Value builds nothing, and a list appends exactly the nodes of `Called` and returns `Gathered` of its outputs |
| NN.MLPCall | nn.py:44-48 | the numbers the network returns are exactly `MLPValue` of its input, each layer's output fed to the next |
| GradientExamples.FanOut | engine.py:15-24 | for `c = a + a`, `a.grad` becomes 2.0 although `_prev` holds `a` once |
| GradientExamples.Product | engine.py:26-35 | for `c = a * b` with 3 and 4, `a.grad == 4`, `b.grad == 3` and `c.grad == 1` |
| GradientExamples.Square | engine.py:37-45 | for `a ** 2` with `a = 5`, `a.grad == 10` |
| GradientExamples.TanhDerivative | engine.py:47-56 | `tanh` gives a value `t` in (-1, 1), and `a.grad == 1 - t * t` |
| GradientExamples.Diamond | engine.py:77-84 | for `(a + b) * (a - b)`, `a.grad == 2 * a.data` and `b.grad == -2 * b.data` |
| GradientExamples.DiamondReach | engine.py:90-95 | the root of that graph reaches all seven of its nodes, and none of them faults |
| GradientExamples.DiamondInner | engine.py:98-100 | both factors get gradient `a + b` or `a - b` as the product rule says |
| GradientExamples.DiamondGradients | engine.py:98-100 | the leaves get the gradients of `a**2 - b**2` |
| GradientExamples.LeafRoot | engine.py:86-100 | backward from a leaf gives it gradient 1.0 and leaves a node built from it untouched |
| GradientExamples.PowerOfValue | engine.py:38 | `a ** b` for a Value `b` fails and builds nothing |
| GradientExamples.ExpBackward | engine.py:62-64 | backward through `exp` raises |
| GradientExamples.FirstFault | engine.py:41-100 | for `(Value(0.0) ** 0).exp()`, backward raises the `exp` error, which the reversed sweep reaches before the power node's `ZeroDivision` |
| GradientExamples.Network | nn.py:39-48 | `MLP(3, [4, 4, 1])` has 41 parameters and can be called on three numbers |

## Left out

- Floating point: `data` and `grad` are reals, so IEEE rounding, infinities, NaN and the `OverflowError` of `math.exp` are not modelled.
- `math.exp` is a parameter. Forward `tanh` and `exp` are only known through it, and only its positivity is assumed.
- `random.uniform(-1, 1)` is a nondeterministic choice of a value in [-1, 1].
- Exponents of `**` are integers. A real, non-integer exponent is not modelled.
- `__repr__` and the `_op` label are not modelled. The label is stored and never read (`__repr__` prints only `data` and `grad`), and the op tag carries what the backward step needs.
- Python mechanics are replaced by arena indices: closures, identity-hashed `set`s and the recursion-depth limit of `build_topo`.
- The order in which a Python `set` yields children is unspecified, so `BuildTopo` walks them in any order.
- Engine.Graph.Backward: after a step raises, the contract states which fault was raised (that of the last faulting node of the list) and that unreached gradients are untouched. It does not state the exact partial gradients left by the steps that ran before it.
- Engine.Graph.NewValue: Python's `Value(data, _children)` accepts any children and installs a no-op `_backward`. In the model the operands are given by an op tag, and each tag carries its own backward rule, so a node with children and a no-op backward step cannot be built.
- `2 - a` and any other operator form micrograd does not define (there is no `__rsub__`) are not modelled.
- `Module.parameters()` returning `[]` is not modelled separately: `Layer` and `MLP` do not inherit from `Module`, and `Neuron` overrides it.
- NN.ZeroGrad is provided only for a `Neuron`, because only `Neuron` inherits `zero_grad`. It sets the gradient to the real 0.0 where Python stores the integer 0.
- An input signal (`NN.Signal`) is either a list whose entries are numbers or existing `Value`s, or one single `Value`. A bare number passed as the whole input cannot be expressed; Python raises `TypeError` for it in `zip` (nn.py:18). Inputs of any other type are not modelled either.
- Sizes `nin`, `nout` and the entries of `nouts` are natural numbers. Python's `range` takes a negative size as 0 and builds an empty list of weights, neurons or layers; such sizes are not modelled.
- NN.MLPCall: states the numbers the network returns and that it only appends nodes. It does not state which nodes each layer appends; `LayerCall` states that for one layer.
- Training loops, loss functions and visualisation fall outside the engine and network code modelled here.
