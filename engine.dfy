/** The `Value` class of engine.py over an arena: a `Graph` object owns every
    node, a `Value` is the index of its node, and each operation appends the
    nodes it creates.  Backpropagation is the recursive topological sort
    followed by the reversed sweep of backward steps. */
module Engine {
  import opened Values

  /** The right-hand side of `+` and `*`: a Value, or a number that is lifted into a fresh leaf. */
  datatype Operand = Num(x: real) | Val(id: nat)

  /** The right-hand side of `**`: only a number is accepted. */
  datatype Exponent = IntExponent(n: int) | ValueExponent(id: nat)

  /** How a call of `backward` ends: normally, or with the exception a backward step raised. */
  datatype Outcome = Done | Raised(error: Error)

  /** The nodes a lifted operand adds to the arena. */
  function Lifted(other: Operand): seq<Node>
  {
    match other
    case Num(x) => [Node(x, 0.0, Leaf)]
    case Val(_) => []
  }

  /** The index an operand has once lifted into an arena of `size` nodes. */
  function OperandId(size: nat, other: Operand): nat
  {
    match other
    case Num(_) => size
    case Val(id) => id
  }

  /** The number an operand stands for. */
  function OperandValue(g: Arena, other: Operand): real
    requires other.Val? ==> other.id < |g|
  {
    match other
    case Num(x) => x
    case Val(id) => g[id].data
  }

  /** Every function value `math.exp` can produce is positive. */
  ghost predicate PositiveExp(exp: real -> real)
  {
    forall x :: exp(x) > 0.0
  }

  /** The set of distinct elements of a list. */
  function Elems(s: seq<nat>): set<nat>
  {
    set x | x in s
  }

  /** No element of the list occurs twice. */
  predicate Distinct(s: seq<nat>)
    decreases |s|
  {
    |s| == 0 || (Distinct(s[..|s| - 1]) && s[|s| - 1] !in s[..|s| - 1])
  }

  /** Each listed node comes after all of its operands. */
  predicate Ordered(g: Arena, topo: seq<nat>)
    decreases |topo|
  {
    |topo| == 0 ||
    (Ordered(g, topo[..|topo| - 1]) && topo[|topo| - 1] < |g| &&
     Prev(g[topo[|topo| - 1]].op) <= Elems(topo[..|topo| - 1]))
  }

  lemma {:induction false} DistinctAt(s: seq<nat>, p: nat, q: nat)
    requires Distinct(s) && p < q < |s|
    ensures s[p] != s[q]
    decreases |s|
  {
    var n := |s| - 1;
    if q < n {
      DistinctAt(s[..n], p, q);
    } else {
      assert s[p] == s[..n][p];
    }
  }

  lemma {:induction false} OrderedAt(g: Arena, s: seq<nat>, q: nat)
    requires Ordered(g, s) && q < |s|
    ensures s[q] < |g| && Prev(g[s[q]].op) <= Elems(s[..q])
    decreases |s|
  {
    var n := |s| - 1;
    if q < n {
      OrderedAt(g, s[..n], q);
      assert s[..n][..q] == s[..q];
    }
  }

  lemma OrderedBelow(g: Arena, s: seq<nat>)
    requires Ordered(g, s)
    ensures forall p :: 0 <= p < |s| ==> s[p] < |g|
  {
    forall p | 0 <= p < |s| ensures s[p] < |g| {
      OrderedAt(g, s, p);
    }
  }

  /** A topologically ordered list holds everything its members reach. */
  lemma {:induction false} OrderedClosed(g: Arena, topo: seq<nat>, x: nat)
    requires WellFormed(g) && Ordered(g, topo) && x in Elems(topo)
    ensures x < |g| && Reach(g, x) <= Elems(topo)
    decreases x
  {
    var p :| 0 <= p < |topo| && topo[p] == x;
    OrderedAt(g, topo, p);
    ReachUnfold(g, x);
    forall c | c in Prev(g[x].op) ensures Reach(g, c) <= Elems(topo) {
      assert c in Elems(topo[..p]);
      OrderedClosed(g, topo, c);
    }
  }

  /** In an ordered list without repetitions, no node listed at or before
      position `i` consumes the node at position `i`. */
  lemma ConsumersLater(g: Arena, topo: seq<nat>, i: nat, q: nat)
    requires Distinct(topo) && Ordered(g, topo) && i < |topo| && q <= i
    ensures topo[q] < |g| && topo[i] !in Prev(g[topo[q]].op)
  {
    OrderedAt(g, topo, q);
    forall r | 0 <= r < q ensures topo[r] != topo[i] {
      DistinctAt(topo, r, i);
    }
    assert topo[i] !in Elems(topo[..q]);
  }

  /** Listing a node whose operands are all listed keeps the list ordered and repetition-free. */
  lemma AppendOrdered(g: Arena, topo: seq<nat>, v: nat)
    requires Distinct(topo) && Ordered(g, topo) && v < |g|
    requires v !in Elems(topo) && Prev(g[v].op) <= Elems(topo)
    ensures Distinct(topo + [v]) && Ordered(g, topo + [v])
    ensures Elems(topo + [v]) == Elems(topo) + {v}
  {
    assert (topo + [v])[..|topo|] == topo;
  }

  lemma PrefixTrans(a: seq<nat>, b: seq<nat>, c: seq<nat>)
    requires |a| <= |b| && b[..|a|] == a && |b| <= |c| && c[..|b|] == b
    ensures c[..|a|] == a
  {
    assert c[..|a|] == c[..|b|][..|a|];
  }

  /** Where `build_topo(v)` stands once the children in `done` have been
      walked, starting from `visited` and `topo`: `v` is marked, everything
      the walked children reach is marked and listed, and the list grew at
      its end only. */
  predicate Visiting(g: Arena, visited: set<nat>, topo: seq<nat>, v: nat, done: set<nat>,
                     visitedNow: set<nat>, topoNow: seq<nat>)
  {
    WellFormed(g) && v < |g| && (forall c :: c in done ==> c < v) &&
    visitedNow == visited + {v} + ReachOf(g, done) &&
    Elems(topoNow) == Elems(topo) + ReachOf(g, done) &&
    Distinct(topoNow) && Ordered(g, topoNow) && Elems(topoNow) <= visitedNow &&
    |topo| <= |topoNow| && topoNow[..|topo|] == topo
  }

  lemma VisitStart(g: Arena, visited: set<nat>, topo: seq<nat>, v: nat)
    requires WellFormed(g) && v < |g| && Distinct(topo) && Ordered(g, topo) && Elems(topo) <= visited
    ensures Visiting(g, visited, topo, v, {}, visited + {v}, topo)
  {
    assert ReachOf(g, {}) == {};
  }

  /** Nodes marked but not yet listed are on the current path, above the child about to be walked. */
  lemma VisitNext(g: Arena, visited: set<nat>, topo: seq<nat>, v: nat, done: set<nat>,
                  visitedNow: set<nat>, topoNow: seq<nat>, c: nat)
    requires Visiting(g, visited, topo, v, done, visitedNow, topoNow) && c < v
    requires forall x :: x in visited && x !in Elems(topo) ==> v < x
    ensures forall x :: x in visitedNow && x !in Elems(topoNow) ==> c < x
  {
  }

  /** Walking one more child `c` of the pending ones keeps the walk's state. */
  lemma VisitStep(g: Arena, visited: set<nat>, topo: seq<nat>, v: nat, children: set<nat>, pending: set<nat>,
                  visitedNow: set<nat>, topoNow: seq<nat>, c: nat,
                  visitedNext: set<nat>, topoNext: seq<nat>)
    requires Visiting(g, visited, topo, v, children - pending, visitedNow, topoNow)
    requires pending <= children && c in pending && c < v
    requires visitedNext == visitedNow + Reach(g, c)
    requires Elems(topoNext) == Elems(topoNow) + Reach(g, c)
    requires Distinct(topoNext) && Ordered(g, topoNext)
    requires |topoNow| <= |topoNext| && topoNext[..|topoNow|] == topoNow
    ensures Visiting(g, visited, topo, v, children - (pending - {c}), visitedNext, topoNext)
  {
    PendingStep(children, pending, c);
    ReachOfAdd(g, children - pending, c);
    PrefixTrans(topo, topoNow, topoNext);
  }

  lemma PendingStep(children: set<nat>, pending: set<nat>, c: nat)
    requires pending <= children && c in pending
    ensures children - (pending - {c}) == (children - pending) + {c}
  {
  }

  /** Once every child is walked, listing `v` completes the walk from `v`. */
  lemma VisitFinish(g: Arena, visited: set<nat>, topo: seq<nat>, v: nat,
                    visitedNow: set<nat>, topoNow: seq<nat>)
    requires WellFormed(g) && v < |g|
    requires Visiting(g, visited, topo, v, Prev(g[v].op), visitedNow, topoNow)
    requires v !in visited && Elems(topo) <= visited
    ensures visitedNow == visited + Reach(g, v)
    ensures Elems(topoNow + [v]) == Elems(topo) + Reach(g, v)
    ensures Distinct(topoNow + [v]) && Ordered(g, topoNow + [v])
    ensures |topo| <= |topoNow + [v]| && (topoNow + [v])[..|topo|] == topo
  {
    ReachUnfold(g, v);
    FinishList(g, visited, topo, v, visitedNow, topoNow);
    UnionSteps(visited, Elems(topo), v, ReachOf(g, Prev(g[v].op)), Reach(g, v), visitedNow, Elems(topoNow));
  }

  /** Listing `v` after its walked children keeps the list ordered. */
  lemma FinishList(g: Arena, visited: set<nat>, topo: seq<nat>, v: nat,
                   visitedNow: set<nat>, topoNow: seq<nat>)
    requires WellFormed(g) && v < |g|
    requires Visiting(g, visited, topo, v, Prev(g[v].op), visitedNow, topoNow)
    requires v !in visited && Elems(topo) <= visited
    ensures Elems(topoNow + [v]) == Elems(topoNow) + {v}
    ensures Distinct(topoNow + [v]) && Ordered(g, topoNow + [v])
    ensures |topo| <= |topoNow + [v]| && (topoNow + [v])[..|topo|] == topo
  {
    ReachOfCovers(g, Prev(g[v].op), v);
    assert v !in Elems(topoNow) && Prev(g[v].op) <= Elems(topoNow);
    AppendOrdered(g, topoNow, v);
    PrefixAppend(topo, topoNow, v);
  }

  lemma PrefixAppend(a: seq<nat>, b: seq<nat>, v: nat)
    requires |a| <= |b| && b[..|a|] == a
    ensures |a| <= |b + [v]| && (b + [v])[..|a|] == a
  {
    assert (b + [v])[..|a|] == b[..|a|];
  }

  lemma UnionSteps(visited: set<nat>, listed: set<nat>, v: nat, below: set<nat>, reach: set<nat>,
                   visitedNow: set<nat>, listedNow: set<nat>)
    requires reach == {v} + below
    requires visitedNow == visited + {v} + below && listedNow == listed + below
    ensures visitedNow == visited + reach && listedNow + {v} == listed + reach
  {
  }

  /** What the `_backward` closure of node `k` does to the arena `before`:
      it raises the node's fault and changes nothing, or it adds the local
      derivative times `k`'s gradient into every gradient. */
  predicate BackwardStep(before: Arena, k: nat, after: Arena, outcome: Outcome)
  {
    WellFormed(before) && k < |before| && SameValues(after, before) &&
    outcome == (if Fault(before, k).Some? then Raised(Fault(before, k).value) else Done) &&
    (outcome.Raised? ==> after == before) &&
    (outcome == Done ==> forall v :: 0 <= v < |after| ==>
      after[v].grad == before[v].grad + Times(Local(before, k, v), before[k].grad))
  }
  /** The arena with `d` added to the gradient of node `a`. */
  function Bump(g: Arena, a: nat, d: real): (h: Arena)
    requires a < |g|
    ensures SameValues(h, g)
  {
    g[a := g[a].(grad := g[a].grad + d)]
  }

  lemma AddStep(g: Arena, k: nat, h: Arena)
    requires WellFormed(g) && k < |g| && g[k].op.AddOp?
    requires g[k].op.l < k && g[k].op.r < k
    requires h == Bump(Bump(g, g[k].op.l, 1.0 * g[k].grad), g[k].op.r, 1.0 * g[k].grad)
    ensures BackwardStep(g, k, h, Done)
  {
    var l, r, d := g[k].op.l, g[k].op.r, g[k].grad;
    forall v | 0 <= v < |h| ensures h[v].grad == g[v].grad + Times(Local(g, k, v), d) {
      if l == r == v {
        assert Local(g, k, v) == 2.0;
      }
    }
  }

  lemma MulStep(g: Arena, k: nat, h: Arena)
    requires WellFormed(g) && k < |g| && g[k].op.MulOp?
    requires g[k].op.l < k && g[k].op.r < k
    requires var l, r, d := g[k].op.l, g[k].op.r, g[k].grad;
      h == Bump(Bump(g, l, Times(g[r].data, d)), r, Times(g[l].data, d))
    ensures BackwardStep(g, k, h, Done)
  {
    var l, r, d := g[k].op.l, g[k].op.r, g[k].grad;
    var x, y := g[l].data, g[r].data;
    if l == r {
      TimesAdd(y, x, d);
    } else {
      assert Local(g, k, l) == y + 0.0 && Local(g, k, r) == 0.0 + x;
    }
  }

  lemma UnaryStep(g: Arena, k: nat, a: nat, h: Arena)
    requires WellFormed(g) && k < |g| && Fault(g, k) == None && a < k
    requires Prev(g[k].op) == {a}
    requires h == Bump(g, a, Times(Local(g, k, a), g[k].grad))
    ensures BackwardStep(g, k, h, Done)
  {
  }


  /** The list `build_topo` produces from `root`: every node the root reaches,
      once each, operands first, the root last. */
  predicate Schedule(g: Arena, root: nat, order: seq<nat>)
  {
    WellFormed(g) && root < |g| && Distinct(order) && Ordered(g, order) &&
    (forall p :: 0 <= p < |order| ==> order[p] < |g|) &&
    Elems(order) == Reach(g, root) && |order| > 0 && order[|order| - 1] == root
  }

  /** Where the reversed sweep of `backward` over the schedule `order` stands
      with the nodes listed from position `i` on already run. */
  ghost predicate Swept(g: Arena, root: nat, order: seq<nat>, i: nat, h: Arena, outcome: Outcome)
  {
    Schedule(g, root, order) && Progress(g, root, order, i, h, outcome)
  }

  /** Unreached gradients are untouched; a raised fault is the fault of the
      last node run, every node run before it raised nothing; and if nothing raised, every gradient is its seed plus the
      flow from the nodes already run. */
  ghost predicate Progress(g: Arena, root: nat, order: seq<nat>, i: nat, h: Arena, outcome: Outcome)
    requires Schedule(g, root, order)
  {
    i <= |order| && SameValues(h, g) &&
    (forall v :: 0 <= v < |h| && v !in Reach(g, root) ==> h[v].grad == g[v].grad) &&
    (outcome == Done ==> forall p :: i <= p < |order| ==> Fault(g, order[p]) == None) &&
    (outcome.Raised? ==> (i < |order| && Fault(g, order[i]) == Some(outcome.error) &&
      forall p :: i < p < |order| ==> Fault(g, order[p]) == None)) &&
    (FaultFree(g, root) && outcome == Done ==> forall v :: 0 <= v < |h| ==>
      h[v].grad == Seed(g, root, v) + Flow(g, root, v, root, Elems(order[i..])))
  }

  /** Before any step runs, the root's gradient has been set to 1.0. */
  lemma SweepStart(g: Arena, root: nat, order: seq<nat>, h: Arena)
    requires Schedule(g, root, order) && h == g[root := g[root].(grad := 1.0)]
    ensures Swept(g, root, order, |order|, h, Done)
  {
    assert order[|order|..] == [] && Elems(order[|order|..]) == {};
    forall v | 0 <= v < |h| && FaultFree(g, root)
      ensures h[v].grad == Seed(g, root, v) + Flow(g, root, v, root, Elems(order[|order|..]))
    {
      FlowEmpty(g, root, v, root);
    }
  }

  /** The node at position `i - 1` is in the arena. */
  lemma SweepNext(g: Arena, root: nat, order: seq<nat>, i: nat, h: Arena)
    requires Swept(g, root, order, i, h, Done) && 0 < i
    ensures i - 1 < |order| && order[i - 1] < |h|
  {
  }

  /** Running the backward step of the node at position `i - 1`. */
  lemma SweepAdvance(g: Arena, root: nat, order: seq<nat>, i: nat, h: Arena, h2: Arena, outcome: Outcome)
    requires Swept(g, root, order, i, h, Done) && 0 < i
    requires BackwardStep(h, order[i - 1], h2, outcome)
    ensures Swept(g, root, order, i - 1, h2, outcome)
  {
    var k := order[i - 1];
    LocalSame(g, h, k, 0);
    ReachOperands(g, root, k);
    forall v | 0 <= v < |h2| && v !in Reach(g, root) ensures h2[v].grad == g[v].grad {
      LocalSame(g, h, k, v);
    }
    if FaultFree(g, root) && outcome == Done {
      SweepFlow(g, root, order, i, h, h2);
    }
  }

  /** In a sweep that raises nothing, running the node at position `i - 1`
      with its final gradient extends the flow to position `i - 1`. */
  lemma SweepFlow(g: Arena, root: nat, order: seq<nat>, i: nat, h: Arena, h2: Arena)
    requires Swept(g, root, order, i, h, Done) && 0 < i && FaultFree(g, root)
    requires BackwardStep(h, order[i - 1], h2, Done)
    ensures forall v :: 0 <= v < |h2| ==> h2[v].grad == Seed(g, root, v) + Flow(g, root, v, root, Elems(order[i - 1..]))
  {
    var k := order[i - 1];
    var done := Elems(order[i..]);
    assert Elems(order[i - 1..]) == done + {k} by {
      assert order[i - 1..] == [k] + order[i..];
    }
    forall p | i <= p < |order| ensures order[p] != k {
      DistinctAt(order, i - 1, p);
    }
    assert k !in done;
    forall j | j in Reach(g, root) && j !in done && k < j <= root
      ensures k !in Prev(g[j].op)
    {
      var q :| 0 <= q < |order| && order[q] == j;
      forall p | i <= p < |order| ensures order[p] in done {
        assert order[p] == order[i..][p - i];
      }
      ConsumersLater(g, order, i - 1, q);
    }
    FlowAgree(g, root, k, root, done, Reach(g, root));
    forall v | 0 <= v < |h2|
      ensures h2[v].grad == Seed(g, root, v) + Flow(g, root, v, root, done + {k})
    {
      LocalSame(g, h, k, v);
      FlowInsert(g, root, v, root, done, k);
    }
  }

  /** How the sweep ends: with every listed node run, or with a step that raised. */
  lemma SweepEnd(g: Arena, root: nat, order: seq<nat>, i: nat, h: Arena, outcome: Outcome)
    requires Swept(g, root, order, i, h, outcome) && (i == 0 || outcome.Raised?)
    ensures outcome == Done <==> FaultFree(g, root)
    ensures outcome.Raised? ==> exists k :: k in Reach(g, root) && Fault(g, k) == Some(outcome.error)
    ensures outcome.Raised? ==> LastFault(g, order, outcome.error)
    ensures outcome == Done ==> forall v :: 0 <= v < |h| ==> h[v].grad == Adjoint(g, root, v)
  {
    if outcome == Done {
      forall k | k in Reach(g, root) ensures Fault(g, k) == None {
        var p :| 0 <= p < |order| && order[p] == k;
      }
      assert order[0..] == order;
    } else {
      assert order[i] in Elems(order);
    }
  }

  /** `e` is the fault of the last node of `order` that faults, which is the
      first one a sweep over `reversed(order)` reaches. */
  ghost predicate LastFault(g: Arena, order: seq<nat>, e: Error)
    requires WellFormed(g) && forall p :: 0 <= p < |order| ==> order[p] < |g|
  {
    exists p :: 0 <= p < |order| && Fault(g, order[p]) == Some(e) &&
      forall q :: p < q < |order| ==> Fault(g, order[q]) == None
  }

  class Graph {
    var nodes: seq<Node>

    predicate Valid()
      reads this
    {
      WellFormed(nodes)
    }

    constructor ()
      ensures Valid() && nodes == []
    {
      nodes := [];
    }

    /** `Value(data, _children, _op)`: a fresh node with zero gradient and the given operands. */
    method NewValue(data: real, op: Op) returns (id: nat)
      requires Valid() && OperandsBelow(op, |nodes|)
      modifies this
      ensures Valid() && id == |old(nodes)| && Extends(old(nodes), nodes)
      ensures nodes == old(nodes) + [Node(data, 0.0, op)]
    {
      id := |nodes|;
      nodes := nodes + [Node(data, 0.0, op)];
      assert forall k :: 0 <= k < id ==> nodes[k] == old(nodes)[k];
    }

    /** `other if isinstance(other, Value) else Value(other)`. */
    method Lift(other: Operand) returns (id: nat)
      requires Valid() && (other.Val? ==> other.id < |nodes|)
      modifies this
      ensures Valid() && nodes == old(nodes) + Lifted(other)
      ensures id == OperandId(|old(nodes)|, other) && id < |nodes|
    {
      match other
      case Num(x) =>
        id := NewValue(x, Leaf);
      case Val(j) =>
        id := j;
    }

    /** `self + other`. */
    method Add(i: nat, other: Operand) returns (out: nat)
      requires Valid() && i < |nodes| && (other.Val? ==> other.id < |nodes|)
      modifies this
      ensures Valid() && out == |nodes| - 1 && Extends(old(nodes), nodes)
      ensures nodes[out].data == old(nodes)[i].data + OperandValue(old(nodes), other)
      ensures nodes == old(nodes) + Lifted(other) +
        [Node(old(nodes)[i].data + OperandValue(old(nodes), other), 0.0,
              AddOp(i, OperandId(|old(nodes)|, other)))]
    {
      var j := Lift(other);
      assert nodes[i] == old(nodes)[i] && nodes[j].data == OperandValue(old(nodes), other);
      out := NewValue(nodes[i].data + nodes[j].data, AddOp(i, j));
    }

    /** `self * other`. */
    method Mul(i: nat, other: Operand) returns (out: nat)
      requires Valid() && i < |nodes| && (other.Val? ==> other.id < |nodes|)
      modifies this
      ensures Valid() && out == |nodes| - 1 && Extends(old(nodes), nodes)
      ensures nodes[out].data == Times(old(nodes)[i].data, OperandValue(old(nodes), other))
      ensures nodes == old(nodes) + Lifted(other) +
        [Node(Times(old(nodes)[i].data, OperandValue(old(nodes), other)), 0.0,
              MulOp(i, OperandId(|old(nodes)|, other)))]
    {
      var j := Lift(other);
      assert nodes[i] == old(nodes)[i] && nodes[j].data == OperandValue(old(nodes), other);
      out := NewValue(Times(nodes[i].data, nodes[j].data), MulOp(i, j));
    }

    /** `self ** other`: a Value exponent fails the assertion, a zero base
        with a negative exponent divides by zero. */
    method Pow(i: nat, other: Exponent) returns (r: Result<nat>)
      requires Valid() && i < |nodes|
      modifies this
      ensures Valid()
      ensures other.ValueExponent? ==> r == Err(UnsupportedOperand) && nodes == old(nodes)
      ensures other.IntExponent? && other.n < 0 && old(nodes)[i].data == 0.0 ==>
        r == Err(ZeroDivision) && nodes == old(nodes)
      ensures other.IntExponent? && (other.n >= 0 || old(nodes)[i].data != 0.0) ==>
        r == Ok(|old(nodes)|) &&
        nodes == old(nodes) + [Node(Power(old(nodes)[i].data, other.n), 0.0, PowOp(i, other.n))]
    {
      match other
      case ValueExponent(_) =>
        r := Err(UnsupportedOperand);
      case IntExponent(p) =>
        if p < 0 && nodes[i].data == 0.0 {
          r := Err(ZeroDivision);
        } else {
          var out := NewValue(Power(nodes[i].data, p), PowOp(i, p));
          r := Ok(out);
        }
    }

    /** `self.tanh()`, with `exp` standing for `math.exp`. */
    method Tanh(i: nat, exp: real -> real) returns (out: nat)
      requires Valid() && i < |nodes| && exp(2.0 * nodes[i].data) > 0.0
      modifies this
      ensures Valid() && out == |old(nodes)| && Extends(old(nodes), nodes)
      ensures nodes == old(nodes) + [Node(TanhOf(exp(2.0 * old(nodes)[i].data)), 0.0, TanhOp(i))]
    {
      var x := nodes[i].data;
      var t := TanhOf(exp(2.0 * x));
      out := NewValue(t, TanhOp(i));
    }

    /** `self.exp()`, with `exp` standing for `math.exp`. */
    method Exp(i: nat, exp: real -> real) returns (out: nat)
      requires Valid() && i < |nodes|
      modifies this
      ensures Valid() && out == |old(nodes)|
      ensures nodes == old(nodes) + [Node(exp(old(nodes)[i].data), 0.0, ExpOp(i))]
    {
      out := NewValue(exp(nodes[i].data), ExpOp(i));
    }

    /** `other * self`, for a number `other`: commuted to `self * other`. */
    method RMul(i: nat, x: real) returns (out: nat)
      requires Valid() && i < |nodes|
      modifies this
      ensures Valid() && out == |old(nodes)| + 1
      ensures nodes == old(nodes) + [Node(x, 0.0, Leaf), Node(Times(old(nodes)[i].data, x), 0.0, MulOp(i, |old(nodes)|))]
    {
      out := Mul(i, Num(x));
    }

    /** `other + self`, for a number `other`: commuted to `self + other`. */
    method RAdd(i: nat, x: real) returns (out: nat)
      requires Valid() && i < |nodes|
      modifies this
      ensures Valid() && out == |old(nodes)| + 1
      ensures nodes == old(nodes) + [Node(x, 0.0, Leaf), Node(old(nodes)[i].data + x, 0.0, AddOp(i, |old(nodes)|))]
    {
      ghost var before := nodes;
      assert OperandValue(before, Num(x)) == x && Lifted(Num(x)) == [Node(x, 0.0, Leaf)];
      out := Add(i, Num(x));
      assert nodes == old(nodes) + [Node(x, 0.0, Leaf)] + [Node(old(nodes)[i].data + x, 0.0, AddOp(i, |old(nodes)|))];
    }

    /** `-self`, that is `self * -1`. */
    method Neg(i: nat) returns (out: nat)
      requires Valid() && i < |nodes|
      modifies this
      ensures Valid() && out == |old(nodes)| + 1
      ensures nodes == old(nodes) + [Node(-1.0, 0.0, Leaf), Node(Times(old(nodes)[i].data, -1.0), 0.0, MulOp(i, |old(nodes)|))]
    {
      ghost var before := nodes;
      assert OperandValue(before, Num(-1.0)) == -1.0 && Lifted(Num(-1.0)) == [Node(-1.0, 0.0, Leaf)];
      out := Mul(i, Num(-1.0));
      assert nodes == old(nodes) + [Node(-1.0, 0.0, Leaf)] + [Node(Times(old(nodes)[i].data, -1.0), 0.0, MulOp(i, |old(nodes)|))];
    }

    /** `self - other`, that is `self + (-other)`; negating a number stays a number. */
    method Sub(i: nat, other: Operand) returns (out: nat)
      requires Valid() && i < |nodes| && (other.Val? ==> other.id < |nodes|)
      modifies this
      ensures Valid() && out == |nodes| - 1
      ensures other.Num? ==> (nodes == old(nodes) +
        [Node(-other.x, 0.0, Leaf), Node(old(nodes)[i].data + -other.x, 0.0, AddOp(i, |old(nodes)|))])
      ensures other.Val? ==> (nodes == old(nodes) +
        [Node(-1.0, 0.0, Leaf),
         Node(Times(old(nodes)[other.id].data, -1.0), 0.0, MulOp(other.id, |old(nodes)|)),
         Node(old(nodes)[i].data + Times(old(nodes)[other.id].data, -1.0), 0.0, AddOp(i, |old(nodes)| + 1))])
    {
      match other
      case Num(y) =>
        out := Add(i, Num(-y));
      case Val(j) =>
        var negated := Neg(j);
        out := Add(i, Val(negated));
    }

    /** `self / other`, that is `self * other**-1`; for a number `other` the
        power is taken on numbers, so a zero divides by zero before any node is built. */
    method Div(i: nat, other: Operand) returns (r: Result<nat>)
      requires Valid() && i < |nodes| && (other.Val? ==> other.id < |nodes|)
      modifies this
      ensures Valid()
      ensures OperandValue(old(nodes), other) == 0.0 ==> r == Err(ZeroDivision) && nodes == old(nodes)
      ensures other.Num? && other.x != 0.0 ==> (r == Ok(|old(nodes)| + 1) && nodes == old(nodes) +
        [Node(1.0 / other.x, 0.0, Leaf), Node(Times(old(nodes)[i].data, 1.0 / other.x), 0.0, MulOp(i, |old(nodes)|))])
      ensures other.Val? && old(nodes)[other.id].data != 0.0 ==> (r == Ok(|old(nodes)| + 1) && nodes == old(nodes) +
        [Node(Power(old(nodes)[other.id].data, -1), 0.0, PowOp(other.id, -1)),
         Node(Times(old(nodes)[i].data, Power(old(nodes)[other.id].data, -1)), 0.0, MulOp(i, |old(nodes)|))])
    {
      match other
      case Num(y) =>
        if y == 0.0 {
          r := Err(ZeroDivision);
        } else {
          var out := Mul(i, Num(1.0 / y));
          r := Ok(out);
        }
      case Val(j) =>
        var inverse := Pow(j, IntExponent(-1));
        if inverse.Err? {
          r := inverse;
        } else {
          var out := Mul(i, Val(inverse.value));
          r := Ok(out);
        }
    }

    /** `other / self`, for a number `other`: `other * self**-1`, which Python
        turns into `self**-1 * other`. */
    method RDiv(i: nat, x: real) returns (r: Result<nat>)
      requires Valid() && i < |nodes|
      modifies this
      ensures Valid()
      ensures old(nodes)[i].data == 0.0 ==> r == Err(ZeroDivision) && nodes == old(nodes)
      ensures old(nodes)[i].data != 0.0 ==> (r == Ok(|old(nodes)| + 2) && nodes == old(nodes) +
        [Node(Power(old(nodes)[i].data, -1), 0.0, PowOp(i, -1)),
         Node(x, 0.0, Leaf),
         Node(Times(Power(old(nodes)[i].data, -1), x), 0.0, MulOp(|old(nodes)|, |old(nodes)| + 1))])
    {
      var inverse := Pow(i, IntExponent(-1));
      if inverse.Err? {
        r := inverse;
      } else {
        var out := RMul(inverse.value, x);
        r := Ok(out);
      }
    }

    /** The `_backward` closure of node `k`: adds the locally scaled gradient of
        `k` into its operands, or raises before changing anything. */
    method Propagate(k: nat) returns (outcome: Outcome)
      requires Valid() && k < |nodes|
      modifies this
      ensures Valid() && BackwardStep(old(nodes), k, nodes, outcome)
    {
      ghost var g := nodes;
      assert OperandsBelow(nodes[k].op, k);
      var out := nodes[k];
      match out.op
      case Leaf =>
        outcome := Done;
      case AddOp(l, r) =>
        nodes := nodes[l := nodes[l].(grad := nodes[l].grad + 1.0 * out.grad)];
        nodes := nodes[r := nodes[r].(grad := nodes[r].grad + 1.0 * out.grad)];
        outcome := Done;
        AddStep(g, k, nodes);
      case MulOp(l, r) =>
        var x, y := nodes[l].data, nodes[r].data;
        nodes := nodes[l := nodes[l].(grad := nodes[l].grad + Times(y, out.grad))];
        nodes := nodes[r := nodes[r].(grad := nodes[r].grad + Times(x, out.grad))];
        outcome := Done;
        MulStep(g, k, nodes);
      case PowOp(b, p) =>
        if p - 1 < 0 && nodes[b].data == 0.0 {
          outcome := Raised(ZeroDivision);
        } else {
          nodes := nodes[b := nodes[b].(grad := nodes[b].grad + Times(PowSlope(nodes[b].data, p), out.grad))];
          outcome := Done;
          UnaryStep(g, k, b, nodes);
        }
      case TanhOp(a) =>
        var t := out.data;
        nodes := nodes[a := nodes[a].(grad := nodes[a].grad + Times(TanhSlope(t), out.grad))];
        outcome := Done;
        UnaryStep(g, k, a, nodes);
      case ExpOp(_) =>
        outcome := Raised(BackwardArity);
    }

    /** `build_topo(v)`: a depth-first post-order walk through `_prev`, whose
        children come in whatever order the set yields them.  `visited` holds
        the finished nodes, which are listed in `topo`, and the nodes on the
        current path, which all lie above `v`. */
    method BuildTopo(v: nat, visited: set<nat>, topo: seq<nat>) returns (visited': set<nat>, topo': seq<nat>)
      requires Valid() && v < |nodes|
      requires Distinct(topo) && Ordered(nodes, topo) && Elems(topo) <= visited
      requires forall x :: x in visited && x !in Elems(topo) ==> v < x
      ensures visited' == visited + Reach(nodes, v)
      ensures Elems(topo') == Elems(topo) + Reach(nodes, v)
      ensures Distinct(topo') && Ordered(nodes, topo')
      ensures |topo| <= |topo'| && topo'[..|topo|] == topo
      ensures v !in visited ==> |topo'| > 0 && topo'[|topo'| - 1] == v
      decreases v, 1
    {
      if v in visited {
        OrderedClosed(nodes, topo, v);
        return visited, topo;
      }
      VisitStart(nodes, visited, topo, v);
      visited', topo' := WalkChildren(v, visited, visited + {v}, topo);
      VisitFinish(nodes, visited, topo, v, visited', topo');
      topo' := topo' + [v];
    }

    /** The loop of `build_topo(v)` over the children of `v`, once `v` is
        marked: it walks each child in turn. */
    method WalkChildren(v: nat, ghost visited: set<nat>, marked: set<nat>, topo: seq<nat>)
      returns (visited': set<nat>, topo': seq<nat>)
      requires Valid() && v < |nodes| && marked == visited + {v}
      requires forall x :: x in visited && x !in Elems(topo) ==> v < x
      requires Visiting(nodes, visited, topo, v, {}, marked, topo)
      ensures Visiting(nodes, visited, topo, v, Prev(nodes[v].op), visited', topo')
      decreases v, 0
    {
      PrevBelow(nodes, v);
      var children := Prev(nodes[v].op);
      visited', topo' := marked, topo;
      var pending := children;
      while pending != {}
        invariant pending <= children
        invariant Visiting(nodes, visited, topo, v, children - pending, visited', topo')
        decreases |pending|
      {
        var c :| c in pending;
        VisitNext(nodes, visited, topo, v, children - pending, visited', topo', c);
        ghost var visitedNow, topoNow := visited', topo';
        visited', topo' := BuildTopo(c, visited', topo');
        VisitStep(nodes, visited, topo, v, children, pending, visitedNow, topoNow, c, visited', topo');
        pending := pending - {c};
      }
      assert children - pending == children;
    }

    /** `backward()`: list the nodes the root reaches, set the root's gradient
        to 1.0 and run every listed node's backward step once, last listed
        first.  A step that raises ends the pass with earlier steps applied. */
    method Backward(root: nat) returns (outcome: Outcome, ghost topo: seq<nat>)
      requires Valid() && root < |nodes|
      modifies this
      ensures Valid() && SameValues(nodes, old(nodes))
      ensures Distinct(topo) && Ordered(old(nodes), topo)
      ensures Elems(topo) == Reach(old(nodes), root) && topo[|topo| - 1] == root
      ensures outcome == Done <==> FaultFree(old(nodes), root)
      ensures outcome.Raised? ==> exists k :: k in Reach(old(nodes), root) && Fault(old(nodes), k) == Some(outcome.error)
      ensures forall p :: 0 <= p < |topo| ==> topo[p] < |old(nodes)|
      ensures outcome.Raised? ==> LastFault(old(nodes), topo, outcome.error)
      ensures forall v :: 0 <= v < |nodes| && v !in Reach(old(nodes), root) ==> nodes[v].grad == old(nodes)[v].grad
      ensures outcome == Done ==> forall v :: 0 <= v < |nodes| ==> nodes[v].grad == Adjoint(old(nodes), root, v)
    {
      var visited, order := BuildTopo(root, {}, []);
      topo := order;
      OrderedBelow(nodes, order);
      nodes := nodes[root := nodes[root].(grad := 1.0)];
      outcome := Sweep(old(nodes), root, order);
    }

    /** The loop `for v in reversed(topo): v._backward()` over the list
        `build_topo` made from `root`, once the root's gradient is 1.0. */
    method Sweep(ghost g: Arena, root: nat, order: seq<nat>) returns (outcome: Outcome)
      requires Valid() && Schedule(g, root, order) && nodes == g[root := g[root].(grad := 1.0)]
      modifies this
      ensures Valid() && SameValues(nodes, g)
      ensures outcome == Done <==> FaultFree(g, root)
      ensures outcome.Raised? ==> exists k :: k in Reach(g, root) && Fault(g, k) == Some(outcome.error)
      ensures outcome.Raised? ==> LastFault(g, order, outcome.error)
      ensures forall v :: 0 <= v < |nodes| && v !in Reach(g, root) ==> nodes[v].grad == g[v].grad
      ensures outcome == Done ==> forall v :: 0 <= v < |nodes| ==> nodes[v].grad == Adjoint(g, root, v)
    {
      SweepStart(g, root, order, nodes);
      var i: nat := |order|;
      outcome := Done;
      while i > 0 && outcome == Done
        invariant Valid() && Swept(g, root, order, i, nodes, outcome)
      {
        ghost var h := nodes;
        SweepNext(g, root, order, i, h);
        outcome := Propagate(order[i - 1]);
        SweepAdvance(g, root, order, i, h, nodes, outcome);
        i := i - 1;
      }
      SweepEnd(g, root, order, i, nodes, outcome);
    }
  }
}
