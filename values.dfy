/** The scalar autograd graph as plain data: every `Value` of the engine is a
    node of an arena, and every operand reference is the index of an earlier
    node.  This module holds the node records, the reachability relation that
    `_prev` induces, the local derivative each backward step applies, and the
    reference gradients a complete backward pass must produce. */
module Values {

  /** The exceptions the engine and the network layer raise. */
  datatype Error =
    | UnsupportedOperand  // `**` with a Value as exponent fails its assertion
    | ZeroDivision        // `0.0 ** n` with a negative n
    | BackwardArity       // the backward step of `exp` is called without its parameter
    | NotIterable         // `zip` over a single Value instead of a list

  datatype Option<T> = None | Some(value: T)

  datatype Result<T> = Ok(value: T) | Err(error: Error)

  /** How a node was produced: its operands (by index) and its backward rule. */
  datatype Op =
    | Leaf
    | AddOp(l: nat, r: nat)
    | MulOp(l: nat, r: nat)
    | PowOp(base: nat, p: int)
    | TanhOp(arg: nat)
    | ExpOp(arg: nat)

  /** One `Value`: its forward result, its accumulated gradient, its origin. */
  datatype Node = Node(data: real, grad: real, op: Op)

  type Arena = seq<Node>

  /** The set `_prev` of a node: each operand once, whatever its multiplicity. */
  function Prev(op: Op): set<nat>
  {
    match op
    case Leaf => {}
    case AddOp(l, r) => {l, r}
    case MulOp(l, r) => {l, r}
    case PowOp(b, _) => {b}
    case TanhOp(a) => {a}
    case ExpOp(a) => {a}
  }

  /** Every operand of a node at index `k` was created before it. */
  predicate OperandsBelow(op: Op, k: nat)
  {
    match op
    case Leaf => true
    case AddOp(l, r) => l < k && r < k
    case MulOp(l, r) => l < k && r < k
    case PowOp(b, _) => b < k
    case TanhOp(a) => a < k
    case ExpOp(a) => a < k
  }

  /** The arena is acyclic by construction: operands precede their node. */
  predicate WellFormed(g: Arena)
  {
    forall k :: 0 <= k < |g| ==> OperandsBelow(g[k].op, k)
  }

  lemma PrevBelow(g: Arena, k: nat)
    requires WellFormed(g) && k < |g|
    ensures forall c :: c in Prev(g[k].op) ==> c < k
  {
    assert OperandsBelow(g[k].op, k);
  }

  /** Two arenas that differ at most in their gradients. */
  predicate SameValues(g: Arena, h: Arena)
  {
    |g| == |h| && forall k :: 0 <= k < |g| ==> g[k].data == h[k].data && g[k].op == h[k].op
  }

  /** `h` is `g` with nodes appended: building a node never touches an existing one. */
  predicate Extends(g: Arena, h: Arena)
  {
    |g| <= |h| && h[..|g|] == g
  }

  lemma ExtendsAt(g: Arena, h: Arena, k: nat)
    requires Extends(g, h) && k < |g|
    ensures h[k] == g[k]
  {
    assert h[..|g|][k] == h[k];
  }

  lemma ExtendsGrow(g: Arena, h: Arena, extra: seq<Node>)
    requires Extends(g, h)
    ensures Extends(g, h + extra)
  {
    assert (h + extra)[..|g|] == h[..|g|];
  }

  lemma ExtendsTrans(g: Arena, h: Arena, f: Arena)
    requires Extends(g, h) && Extends(h, f)
    ensures Extends(g, f)
  {
    assert f[..|g|] == f[..|h|][..|g|];
  }

  /** `x ** n` for an integer exponent; Python refuses a zero base with a negative exponent. */
  function Power(x: real, n: int): (r: real)
    requires 0 <= n || x != 0.0
    ensures x != 0.0 ==> r != 0.0
    decreases if n < 0 then -n else n
  {
    if n == 0 then 1.0
    else if n > 0 then x * Power(x, n - 1)
    else Power(x, n + 1) / x
  }

  /** Raising to `n + 1` multiplies by the base once more, negative `n` included. */
  lemma PowerSucc(x: real, n: int)
    requires 0 <= n || x != 0.0
    ensures Power(x, n + 1) == x * Power(x, n)
  {
    if n < 0 {
      assert Power(x, n) == Power(x, n + 1) / x;
    }
  }

  /** A product of two reals.  Products are always formed through this one
      function, so that equal factors are seen to give equal products. */
  function Times(a: real, b: real): real
  {
    a * b
  }

  lemma TimesAdd(a: real, b: real, c: real)
    ensures Times(a + b, c) == Times(a, c) + Times(b, c)
  {
  }

  /** d/dx of `x ** p`: `p * x ** (p - 1)`. */
  function PowSlope(x: real, p: int): real
    requires 0 <= p - 1 || x != 0.0
  {
    Times(p as real, Power(x, p - 1))
  }

  /** d/dx of `tanh x` in terms of its value `t`: `1 - t ** 2`. */
  function TanhSlope(t: real): real
  {
    1.0 - Times(t, t)
  }

  /** The forward `tanh` of engine.py:49, from the value `e` the exponential gives for `2*x`. */
  function TanhOf(e: real): (t: real)
    requires e > 0.0
    ensures -1.0 < t < 1.0
  {
    assert (e - 1.0) / (e + 1.0) * (e + 1.0) == e - 1.0;
    (e - 1.0) / (e + 1.0)
  }

  /** The exception a node's backward step raises, if any. */
  function Fault(g: Arena, k: nat): Option<Error>
    requires WellFormed(g) && k < |g|
  {
    assert OperandsBelow(g[k].op, k);
    match g[k].op
    case PowOp(b, p) => if p - 1 < 0 && g[b].data == 0.0 then Some(ZeroDivision) else None
    case ExpOp(_) => Some(BackwardArity)
    case _ => None
  }

  /** The factor by which the backward step of node `k` adds `k`'s gradient into
      the gradient of `v`; an operand used twice receives it twice. */
  function Local(g: Arena, k: nat, v: nat): (f: real)
    requires WellFormed(g) && k < |g| && Fault(g, k) == None
    ensures v !in Prev(g[k].op) ==> f == 0.0
  {
    assert OperandsBelow(g[k].op, k);
    match g[k].op
    case Leaf => 0.0
    case AddOp(l, r) => (if l == v then 1.0 else 0.0) + (if r == v then 1.0 else 0.0)
    case MulOp(l, r) => (if l == v then g[r].data else 0.0) + (if r == v then g[l].data else 0.0)
    case PowOp(b, p) => if b == v then PowSlope(g[b].data, p) else 0.0
    case TanhOp(a) => if a == v then TanhSlope(g[k].data) else 0.0
    case ExpOp(_) => assert false; 0.0
  }

  /** Every node reachable from `v` through `_prev`, `v` included. */
  function Reach(g: Arena, v: nat): (r: set<nat>)
    requires WellFormed(g) && v < |g|
    ensures v in r
    ensures forall x :: x in r ==> x <= v
    decreases v
  {
    assert OperandsBelow(g[v].op, v);
    {v} + match g[v].op
      case Leaf => {}
      case AddOp(l, r) => Reach(g, l) + Reach(g, r)
      case MulOp(l, r) => Reach(g, l) + Reach(g, r)
      case PowOp(b, _) => Reach(g, b)
      case TanhOp(a) => Reach(g, a)
      case ExpOp(a) => Reach(g, a)
  }

  /** The nodes reachable from some member of `s`. */
  function ReachOf(g: Arena, s: set<nat>): set<nat>
    requires WellFormed(g) && forall c :: c in s ==> c < |g|
  {
    set c, x | c in s && x in Reach(g, c) :: x
  }

  /** Reachability takes one `_prev` step and then continues from that operand. */
  lemma ReachUnfold(g: Arena, v: nat)
    requires WellFormed(g) && v < |g|
    ensures forall c :: c in Prev(g[v].op) ==> c < v
    ensures Reach(g, v) == {v} + ReachOf(g, Prev(g[v].op))
  {
    PrevBelow(g, v);
    var op := g[v].op;
    var r := ReachOf(g, Prev(op));
    match op
    case Leaf =>
    case AddOp(a, b) =>
      assert r == Reach(g, a) + Reach(g, b);
    case MulOp(a, b) =>
      assert r == Reach(g, a) + Reach(g, b);
    case PowOp(b, _) =>
      assert r == Reach(g, b);
    case TanhOp(a) =>
      assert r == Reach(g, a);
    case ExpOp(a) =>
      assert r == Reach(g, a);
  }

  /** Every member of `s` is reached from `s`, and nothing above all of `s` is. */
  lemma ReachOfCovers(g: Arena, s: set<nat>, v: nat)
    requires WellFormed(g) && forall c :: c in s ==> c < v && c < |g|
    ensures s <= ReachOf(g, s)
    ensures forall x :: x in ReachOf(g, s) ==> x < v
  {
    forall c | c in s ensures c in ReachOf(g, s) {
      assert c in Reach(g, c);
    }
  }

  lemma ReachOfAdd(g: Arena, s: set<nat>, c: nat)
    requires WellFormed(g) && c < |g| && forall x :: x in s ==> x < |g|
    ensures ReachOf(g, s + {c}) == ReachOf(g, s) + Reach(g, c)
  {
  }

  /** Reachability is transitive: what a reachable node reaches is reachable. */
  lemma {:induction false} ReachTrans(g: Arena, v: nat, x: nat)
    requires WellFormed(g) && v < |g| && x in Reach(g, v)
    ensures Reach(g, x) <= Reach(g, v)
    decreases v
  {
    if x != v {
      ReachUnfold(g, v);
      var c :| c in Prev(g[v].op) && x in Reach(g, c);
      ReachTrans(g, c, x);
      assert Reach(g, c) <= Reach(g, v);
    }
  }

  /** The operands of a reachable node are reachable. */
  lemma ReachOperands(g: Arena, root: nat, k: nat)
    requires WellFormed(g) && root < |g| && k in Reach(g, root)
    ensures Prev(g[k].op) <= Reach(g, root)
  {
    ReachTrans(g, root, k);
    ReachUnfold(g, k);
    forall v | v in Prev(g[k].op) ensures v in Reach(g, root) {
      assert v in Reach(g, v);
    }
  }

  /** No reachable node raises in its backward step. */
  ghost predicate FaultFree(g: Arena, root: nat)
    requires WellFormed(g) && root < |g|
  {
    forall k :: k in Reach(g, root) ==> Fault(g, k) == None
  }

  /** Sum over the reachable nodes `k` in `p` with `v < k <= hi` of what `k`'s
      backward step contributes to `v`, scaled by `k`'s own final gradient. */
  ghost function Flow(g: Arena, root: nat, v: nat, hi: nat, p: set<nat>): real
    requires WellFormed(g) && root < |g| && FaultFree(g, root)
    requires v < |g| && hi <= root && p <= Reach(g, root)
    decreases |g| - v, hi
  {
    if hi <= v then 0.0
    else Flow(g, root, v, hi - 1, p) + (if hi in p then Share(g, root, hi, v) else 0.0)
  }

  /** What the backward step of consumer `k` adds to `v` once `k`'s gradient is final. */
  ghost function Share(g: Arena, root: nat, k: nat, v: nat): real
    requires WellFormed(g) && root < |g| && FaultFree(g, root) && k in Reach(g, root)
    decreases |g| - k, |g| + 1
  {
    Times(Local(g, k, v), Adjoint(g, root, k))
  }

  /** The gradient `v` holds before any backward step runs: the root's is overwritten with 1.0. */
  function Seed(g: Arena, root: nat, v: nat): real
    requires v < |g|
  {
    if v == root then 1.0 else g[v].grad
  }

  /** The gradient backpropagation from `root` must leave in `v`: the root
      starts from 1.0, every other node from the gradient it already holds, and
      each reachable consumer adds its local derivative times its own gradient.
      With zero initial gradients this is the chain rule for d root / d v. */
  ghost function Adjoint(g: Arena, root: nat, v: nat): real
    requires WellFormed(g) && root < |g| && FaultFree(g, root) && v < |g|
    decreases |g| - v, |g|
  {
    Seed(g, root, v) + Flow(g, root, v, root, Reach(g, root))
  }

  lemma {:induction false} FlowEmpty(g: Arena, root: nat, v: nat, hi: nat)
    requires WellFormed(g) && root < |g| && FaultFree(g, root) && v < |g| && hi <= root
    ensures Flow(g, root, v, hi, {}) == 0.0
    decreases hi
  {
    if hi > v {
      FlowEmpty(g, root, v, hi - 1);
    }
  }

  /** The flow into `v` only depends on which consumers of `v` are counted. */
  lemma {:induction false} FlowAgree(g: Arena, root: nat, v: nat, hi: nat, p: set<nat>, q: set<nat>)
    requires WellFormed(g) && root < |g| && FaultFree(g, root) && v < |g| && hi <= root
    requires p <= q <= Reach(g, root)
    requires forall k :: k in q && k !in p && v < k <= hi ==> v !in Prev(g[k].op)
    ensures Flow(g, root, v, hi, p) == Flow(g, root, v, hi, q)
    decreases hi
  {
    if hi > v {
      FlowAgree(g, root, v, hi - 1, p, q);
    }
  }

  /** A node `k` that cannot consume `v` adds nothing to the flow into `v`. */
  lemma FlowInsertBelow(g: Arena, root: nat, v: nat, hi: nat, p: set<nat>, k: nat)
    requires WellFormed(g) && root < |g| && FaultFree(g, root) && v < |g| && hi <= root
    requires p <= Reach(g, root) && k in Reach(g, root) && k !in p && k <= v
    ensures Local(g, k, v) == 0.0
    ensures Flow(g, root, v, hi, p + {k}) == Flow(g, root, v, hi, p)
  {
    PrevBelow(g, k);
    FlowAgree(g, root, v, hi, p, p + {k});
  }

  /** Counting one more consumer `k` adds exactly its contribution. */
  lemma {:induction false} FlowInsert(g: Arena, root: nat, v: nat, hi: nat, p: set<nat>, k: nat)
    requires WellFormed(g) && root < |g| && FaultFree(g, root) && v < |g| && hi <= root
    requires p <= Reach(g, root) && k in Reach(g, root) && k !in p && k <= hi
    ensures Flow(g, root, v, hi, p + {k}) == Flow(g, root, v, hi, p) + Share(g, root, k, v)
    decreases hi
  {
    if k <= v {
      FlowInsertBelow(g, root, v, hi, p, k);
    } else if k < hi {
      FlowInsert(g, root, v, hi - 1, p, k);
      assert hi in p + {k} <==> hi in p;
    } else {
      var q := p + {k};
      FlowAgree(g, root, v, hi - 1, p, q);
      assert Flow(g, root, v, hi, q) == Flow(g, root, v, hi - 1, q) + Share(g, root, k, v);
      assert Flow(g, root, v, hi, p) == Flow(g, root, v, hi - 1, p);
    }
  }

  /** A node that the root does not reach keeps its gradient. */
  lemma AdjointOutside(g: Arena, root: nat, v: nat)
    requires WellFormed(g) && root < |g| && FaultFree(g, root) && v < |g|
    requires v !in Reach(g, root)
    ensures Adjoint(g, root, v) == g[v].grad
  {
    forall k | k in Reach(g, root) && v < k <= root
      ensures v !in Prev(g[k].op)
    {
      ReachOperands(g, root, k);
    }
    FlowAgree(g, root, v, root, {}, Reach(g, root));
    FlowEmpty(g, root, v, root);
  }

  /** The root's gradient is overwritten with 1.0: nothing the root reaches consumes it. */
  lemma AdjointRoot(g: Arena, root: nat)
    requires WellFormed(g) && root < |g| && FaultFree(g, root)
    ensures Adjoint(g, root, root) == 1.0
  {
  }

  /** Arenas with the same values and operations agree on everything but gradients. */
  lemma {:induction false} ReachSame(g: Arena, h: Arena, v: nat)
    requires WellFormed(g) && SameValues(g, h) && v < |g|
    ensures WellFormed(h) && Reach(g, v) == Reach(h, v)
    decreases v
  {
    assert forall k :: 0 <= k < |g| ==> g[k].op == h[k].op;
    assert OperandsBelow(g[v].op, v);
    match g[v].op
    case Leaf =>
    case AddOp(a, b) => ReachSame(g, h, a); ReachSame(g, h, b);
    case MulOp(a, b) => ReachSame(g, h, a); ReachSame(g, h, b);
    case PowOp(b, _) => ReachSame(g, h, b);
    case TanhOp(a) => ReachSame(g, h, a);
    case ExpOp(a) => ReachSame(g, h, a);
  }

  lemma LocalSame(g: Arena, h: Arena, k: nat, v: nat)
    requires WellFormed(g) && SameValues(g, h) && k < |g|
    ensures WellFormed(h) && Fault(g, k) == Fault(h, k)
    ensures Fault(g, k) == None ==> Local(g, k, v) == Local(h, k, v)
  {
    assert forall j :: 0 <= j < |g| ==> g[j].op == h[j].op;
    assert OperandsBelow(g[k].op, k);
    match g[k].op
    case Leaf =>
    case AddOp(a, b) =>
    case MulOp(a, b) => assert g[a].data == h[a].data && g[b].data == h[b].data;
    case PowOp(b, _) => assert g[b].data == h[b].data;
    case TanhOp(a) => assert g[k].data == h[k].data;
    case ExpOp(a) =>
  }
}
