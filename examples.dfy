/** Small graphs built through the `Value` operations of engine.py and
    differentiated with `backward`, each with the gradients the chain rule
    gives for it. */
module GradientExamples {
  import opened Values
  import opened Engine
  import opened NN

  /** `c = a + a; c.backward()`: the operand set holds `a` once, yet both
      uses add into its gradient. */
  method FanOut(x: real) returns (grad: real)
    ensures grad == 2.0
  {
    var g := new Graph();
    var a := g.NewValue(x, Leaf);
    var c := g.Add(a, Val(a));
    ghost var h := g.nodes;
    assert h == [Node(x, 0.0, Leaf), Node(x + x, 0.0, AddOp(0, 0))];
    assert Reach(h, 0) == {0};
    assert Reach(h, 1) == {0, 1};
    assert Adjoint(h, 1, 1) == 1.0;
    assert Flow(h, 1, 0, 1, {0, 1}) == Flow(h, 1, 0, 0, {0, 1}) + Share(h, 1, 1, 0);
    var outcome, topo := g.Backward(c);
    grad := g.nodes[a].grad;
  }

  /** `c = a * b` with `a = 3` and `b = 4`: each operand receives the other's value. */
  method Product() returns (ga: real, gb: real, gc: real)
    ensures ga == 4.0 && gb == 3.0 && gc == 1.0
  {
    var g := new Graph();
    var a := g.NewValue(3.0, Leaf);
    var b := g.NewValue(4.0, Leaf);
    var c := g.Mul(a, Val(b));
    ghost var h := g.nodes;
    ghost var all := {0, 1, 2};
    assert h == [Node(3.0, 0.0, Leaf), Node(4.0, 0.0, Leaf), Node(Times(3.0, 4.0), 0.0, MulOp(0, 1))];
    assert Reach(h, 0) == {0} && Reach(h, 1) == {1};
    assert Reach(h, 2) == all;
    assert Adjoint(h, 2, 2) == 1.0;
    assert Flow(h, 2, 0, 2, all) == Flow(h, 2, 0, 1, all) + Share(h, 2, 2, 0);
    assert Flow(h, 2, 0, 1, all) == Flow(h, 2, 0, 0, all) + Share(h, 2, 1, 0);
    assert Flow(h, 2, 1, 2, all) == Flow(h, 2, 1, 1, all) + Share(h, 2, 2, 1);
    var outcome, topo := g.Backward(c);
    ga, gb, gc := g.nodes[a].grad, g.nodes[b].grad, g.nodes[c].grad;
  }

  /** `c = a ** 2` with `a = 5`: the power rule gives `2 * 5`. */
  method Square() returns (ga: real)
    ensures ga == 10.0
  {
    var g := new Graph();
    var a := g.NewValue(5.0, Leaf);
    var c := g.Pow(a, IntExponent(2));
    ghost var h := g.nodes;
    assert Power(5.0, 1) == 5.0;
    assert h == [Node(5.0, 0.0, Leaf), Node(Power(5.0, 2), 0.0, PowOp(0, 2))];
    assert Reach(h, 0) == {0};
    assert Reach(h, 1) == {0, 1};
    assert Adjoint(h, 1, 1) == 1.0;
    assert Flow(h, 1, 0, 1, {0, 1}) == Flow(h, 1, 0, 0, {0, 1}) + Share(h, 1, 1, 0);
    var outcome, topo := g.Backward(c.value);
    ga := g.nodes[a].grad;
  }

  /** `t = a.tanh()`: the output lies strictly between -1 and 1, and `a`
      receives `1 - t**2`. */
  method TanhDerivative(x: real, exp: real -> real) returns (t: real, ga: real)
    requires PositiveExp(exp)
    ensures -1.0 < t < 1.0 && ga == 1.0 - t * t
  {
    var g := new Graph();
    var a := g.NewValue(x, Leaf);
    var b := g.Tanh(a, exp);
    ghost var h := g.nodes;
    t := g.nodes[b].data;
    assert h == [Node(x, 0.0, Leaf), Node(t, 0.0, TanhOp(0))];
    assert Reach(h, 0) == {0};
    assert Reach(h, 1) == {0, 1};
    assert Adjoint(h, 1, 1) == 1.0;
    assert Flow(h, 1, 0, 1, {0, 1}) == Flow(h, 1, 0, 0, {0, 1}) + Share(h, 1, 1, 0);
    var outcome, topo := g.Backward(b);
    ga := g.nodes[a].grad;
  }

  /** `d = (a + b) * (a - b)`: `a` and `b` feed both factors, and the
      gradients are those of `a**2 - b**2`. */
  method Diamond(x: real, y: real) returns (ga: real, gb: real)
    ensures ga == 2.0 * x && gb == -2.0 * y
  {
    var g := new Graph();
    var a := g.NewValue(x, Leaf);
    var b := g.NewValue(y, Leaf);
    var s := g.Add(a, Val(b));
    var e := g.Sub(a, Val(b));
    var d := g.Mul(s, Val(e));
    ghost var h := g.nodes;
    DiamondGradients(h, x, y);
    var outcome, topo := g.Backward(d);
    ga, gb := g.nodes[a].grad, g.nodes[b].grad;
  }

  /** The arena `(a + b) * (a - b)` builds, with `a - b` spelled out as `a + b * -1`. */
  predicate DiamondArena(h: Arena, x: real, y: real)
  {
    h == [Node(x, 0.0, Leaf), Node(y, 0.0, Leaf),
          Node(x + y, 0.0, AddOp(0, 1)),
          Node(-1.0, 0.0, Leaf),
          Node(Times(y, -1.0), 0.0, MulOp(1, 3)),
          Node(x + Times(y, -1.0), 0.0, AddOp(0, 4)),
          Node(Times(x + y, x + Times(y, -1.0)), 0.0, MulOp(2, 5))]
  }

  lemma DiamondReach(h: Arena, x: real, y: real)
    requires DiamondArena(h, x, y)
    ensures WellFormed(h) && Reach(h, 6) == {0, 1, 2, 3, 4, 5, 6} && FaultFree(h, 6)
  {
    assert WellFormed(h);
    assert Reach(h, 0) == {0} && Reach(h, 1) == {1} && Reach(h, 3) == {3};
    assert Reach(h, 2) == {0, 1, 2};
    assert Reach(h, 4) == {1, 3, 4};
    assert Reach(h, 5) == {0, 1, 3, 4, 5};
  }

  /** The gradients of the two factors and of `b * -1`. */
  lemma DiamondInner(h: Arena, x: real, y: real)
    requires DiamondArena(h, x, y)
    ensures WellFormed(h) && FaultFree(h, 6)
    ensures Adjoint(h, 6, 5) == x + y && Adjoint(h, 6, 4) == x + y && Adjoint(h, 6, 2) == x - y
  {
    DiamondReach(h, x, y);
    var all := Reach(h, 6);
    assert Adjoint(h, 6, 6) == 1.0;
    assert Flow(h, 6, 5, 6, all) == Flow(h, 6, 5, 5, all) + Share(h, 6, 6, 5);
    assert Flow(h, 6, 4, 6, all) == Flow(h, 6, 4, 5, all) + Share(h, 6, 6, 4);
    assert Flow(h, 6, 4, 5, all) == Flow(h, 6, 4, 4, all) + Share(h, 6, 5, 4);
    assert Flow(h, 6, 2, 6, all) == Flow(h, 6, 2, 5, all) + Share(h, 6, 6, 2);
    assert Flow(h, 6, 2, 5, all) == Flow(h, 6, 2, 4, all) + Share(h, 6, 5, 2);
    assert Flow(h, 6, 2, 4, all) == Flow(h, 6, 2, 3, all) + Share(h, 6, 4, 2);
    assert Flow(h, 6, 2, 3, all) == Flow(h, 6, 2, 2, all) + Share(h, 6, 3, 2);
  }

  /** The gradients of `a` and `b`: those of `a**2 - b**2`. */
  lemma DiamondGradients(h: Arena, x: real, y: real)
    requires DiamondArena(h, x, y)
    ensures WellFormed(h) && FaultFree(h, 6)
    ensures Adjoint(h, 6, 0) == 2.0 * x && Adjoint(h, 6, 1) == -2.0 * y
  {
    DiamondInner(h, x, y);
    var all := Reach(h, 6);
    assert Flow(h, 6, 0, 6, all) == Flow(h, 6, 0, 5, all) + Share(h, 6, 6, 0);
    assert Flow(h, 6, 0, 5, all) == Flow(h, 6, 0, 4, all) + Share(h, 6, 5, 0);
    assert Flow(h, 6, 0, 4, all) == Flow(h, 6, 0, 3, all) + Share(h, 6, 4, 0);
    assert Flow(h, 6, 0, 3, all) == Flow(h, 6, 0, 2, all) + Share(h, 6, 3, 0);
    assert Flow(h, 6, 0, 2, all) == Flow(h, 6, 0, 1, all) + Share(h, 6, 2, 0);
    assert Flow(h, 6, 0, 1, all) == Flow(h, 6, 0, 0, all) + Share(h, 6, 1, 0);
    assert Flow(h, 6, 1, 6, all) == Flow(h, 6, 1, 5, all) + Share(h, 6, 6, 1);
    assert Flow(h, 6, 1, 5, all) == Flow(h, 6, 1, 4, all) + Share(h, 6, 5, 1);
    assert Flow(h, 6, 1, 4, all) == Flow(h, 6, 1, 3, all) + Share(h, 6, 4, 1);
    assert Flow(h, 6, 1, 3, all) == Flow(h, 6, 1, 2, all) + Share(h, 6, 3, 1);
    assert Flow(h, 6, 1, 2, all) == Flow(h, 6, 1, 1, all) + Share(h, 6, 2, 1);
  }

  /** `a.backward()` on a leaf: `a` gets gradient 1.0 and a node built from
      `a` keeps its own. */
  method LeafRoot(x: real) returns (ga: real, gb: real, db: real)
    ensures ga == 1.0 && gb == 0.0 && db == Times(x, 2.0)
  {
    var g := new Graph();
    var a := g.NewValue(x, Leaf);
    var b := g.Mul(a, Num(2.0));
    ghost var h := g.nodes;
    assert h == [Node(x, 0.0, Leaf), Node(2.0, 0.0, Leaf), Node(Times(x, 2.0), 0.0, MulOp(0, 1))];
    assert Reach(h, 0) == {0} && FaultFree(h, 0);
    assert Adjoint(h, 0, 0) == 1.0;
    var outcome, topo := g.Backward(a);
    ga, gb, db := g.nodes[a].grad, g.nodes[b].grad, g.nodes[b].data;
  }

  /** `a ** b` for a Value `b` fails its assertion and builds nothing. */
  method PowerOfValue(x: real, y: real) returns (r: Result<nat>, size: nat)
    ensures r == Err(UnsupportedOperand) && size == 2
  {
    var g := new Graph();
    var a := g.NewValue(x, Leaf);
    var b := g.NewValue(y, Leaf);
    r := g.Pow(a, ValueExponent(b));
    size := |g.nodes|;
  }

  /** `a.exp().backward()`: the backward step of `exp` wants an argument it
      is not given, so the pass raises. */
  method ExpBackward(x: real, exp: real -> real) returns (outcome: Outcome)
    ensures outcome == Raised(BackwardArity)
  {
    var g := new Graph();
    var a := g.NewValue(x, Leaf);
    var e := g.Exp(a, exp);
    ghost var h := g.nodes;
    assert Reach(h, 0) == {0};
    assert Reach(h, 1) == {0, 1};
    assert Fault(h, 0) == None && Fault(h, 1) == Some(BackwardArity);
    ghost var topo;
    outcome, topo := g.Backward(e);
  }

  /** `p = Value(0.0) ** 0; p.exp().backward()`: both `exp` and `** 0` at a zero
      base would raise, but `reversed(topo)` reaches the `exp` node first, so
      the pass raises its error. */
  method FirstFault(exp: real -> real) returns (outcome: Outcome)
    ensures outcome == Raised(BackwardArity)
  {
    var g := new Graph();
    var a := g.NewValue(0.0, Leaf);
    var p := g.Pow(a, IntExponent(0));
    var e := g.Exp(p.value, exp);
    ghost var h := g.nodes;
    assert Reach(h, 0) == {0};
    assert Reach(h, 1) == {0, 1};
    assert Reach(h, 2) == {0, 1, 2};
    assert Fault(h, 1) == Some(ZeroDivision) && Fault(h, 2) == Some(BackwardArity);
    ghost var topo;
    outcome, topo := g.Backward(e);
    assert !FaultFree(h, 2);
    ghost var k :| 0 <= k < |topo| && Fault(h, topo[k]) == Some(outcome.error) &&
      forall q :: k < q < |topo| ==> Fault(h, topo[q]) == None;
    assert k == |topo| - 1;
  }

  /** `MLP(3, [4, 4, 1])` has 41 parameters, and calling it on three numbers succeeds. */
  method Network(exp: real -> real) returns (count: nat, r: Result<Signal>)
    requires PositiveExp(exp)
    ensures count == 41 && r.Ok?
  {
    var g := new Graph();
    var m := NewMLP(g, 3, [4, 4, 1]);
    MLPParameterCount(m, 3, [4, 4, 1]);
    count := |MLPParameters(m)|;
    assert MLPIn(|g.nodes|, m);
    ghost var h := g.nodes;
    var x := Many([Num(2.0), Num(3.0), Num(-1.0)]);
    ghost var sz: seq<nat> := [3] + [4, 4, 1];
    assert sz == [3, 4, 4, 1];
    assert LayerShape(m.layers[0], sz[0], sz[1]) && LayerShape(m.layers[1], sz[1], sz[2]);
    assert !Blocked(m.layers, false);
    MLPFails(h, m.layers, Read(h, x), exp);
    r := MLPCall(g, m, x, exp);
  }
}
