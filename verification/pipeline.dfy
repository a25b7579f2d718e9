/** resolve: the left-to-right pipeline composer, first in its generic form over any
    stage type, then instantiated with the library's operators, where every stage's
    result is materialised as a temporary optional object before the next operator
    receives it. */
module Pipeline {
  import opened Optional
  import opened Memory
  import opened Shapes
  import opened Combinators

  /** Reference definition of a pipeline: apply the operators in order, written from
      the last operator backwards (the last one receives what all earlier ones made).
      With no operators it is the identity. */
  function Chain<X>(x: X, ops: seq<X -> X>): X
    decreases |ops|
  {
    if |ops| == 0 then x else ops[|ops| - 1](Chain(x, ops[..|ops| - 1]))
  }

  /** Peeling the first operator off a chain: the rest runs on its output. */
  lemma {:induction false} ChainFront<X>(x: X, ops: seq<X -> X>)
    requires |ops| >= 1
    ensures Chain(x, ops) == Chain(ops[0](x), ops[1..])
    decreases |ops|
  {
    if |ops| == 1 {
      assert ops[..0] == [];
      assert ops[1..] == [];
    } else {
      var init := ops[..|ops| - 1];
      ChainFront(x, init);
      assert init[1..] == ops[1..][..|ops[1..]| - 1];
      assert ops[1..][|ops[1..]| - 1] == ops[|ops| - 1];
    }
  }

  /** Splitting a chain: running p then q equals running q on the result of p. */
  lemma {:induction false} ChainAppend<X>(x: X, p: seq<X -> X>, q: seq<X -> X>)
    ensures Chain(x, p + q) == Chain(Chain(x, p), q)
    decreases |q|
  {
    if |q| == 0 {
      assert p + q == p;
    } else {
      var q' := q[..|q| - 1];
      ChainAppend(x, p, q');
      assert (p + q)[..|p + q| - 1] == p + q';
      assert (p + q)[|p + q| - 1] == q[|q| - 1];
    }
  }

  /** resolve(x, op) == op(x); resolve(x, op, rest...) == resolve(op(x), rest...).
      At least one operator is required, as in the source. The result is the chain:
      each operator runs exactly once, strictly after all operators before it. */
  function Resolve<X>(x: X, ops: seq<X -> X>): (r: X)
    requires |ops| >= 1
    ensures r == Chain(x, ops)
    decreases |ops|
  {
    if |ops| == 1 then
      assert ops[..0] == [];
      ops[0](x)
    else
      ChainFront(x, ops);
      Resolve(ops[0](x), ops[1..])
  }

  /** The composition law: resolve(x, a, b) is b(a(x)). */
  lemma ResolveTwo<X>(x: X, a: X -> X, b: X -> X)
    ensures Resolve(x, [a, b]) == b(a(x))
  {
    assert [a, b][1..] == [b];
  }

  /** A pipeline may be cut anywhere: resolving p then q in one call is resolving q on
      the result of resolving p. */
  lemma ResolveSplit<X>(x: X, p: seq<X -> X>, q: seq<X -> X>)
    requires |p| >= 1 && |q| >= 1
    ensures Resolve(x, p + q) == Resolve(Resolve(x, p), q)
  {
    ChainAppend(x, p, q);
  }

  /** Any property every operator preserves holds after any number of them. */
  lemma {:induction false} ChainKeeps<X>(x: X, ops: seq<X -> X>, inv: X -> bool)
    requires inv(x)
    requires forall i, y :: 0 <= i < |ops| && inv(y) ==> inv(ops[i](y))
    ensures inv(Chain(x, ops))
    decreases |ops|
  {
    if |ops| > 0 {
      var init := ops[..|ops| - 1];
      forall i, y | 0 <= i < |init| && inv(y)
        ensures inv(init[i](y))
      {
        assert init[i] == ops[i];
      }
      ChainKeeps(x, init, inv);
    }
  }

  /** Any property every operator preserves holds of the whole pipeline's result. */
  lemma ResolveKeeps<X>(x: X, ops: seq<X -> X>, inv: X -> bool)
    requires |ops| >= 1
    requires inv(x)
    requires forall i, y :: 0 <= i < |ops| && inv(y) ==> inv(ops[i](y))
    ensures inv(Resolve(x, ops))
  {
    ChainKeeps(x, ops, inv);
  }

  /** One stage of a pipeline built from the library's combinators. */
  datatype Operator<!T> =
    | TransformOp(f: (Elem<T>, Addr) -> ValueShape<T>)
    | AndThenOp(g: (Elem<T>, Addr) -> OptionalShape<T>)
    | OrElseOp(fb: Fallback<T>)

  function Run<T>(op: Operator<T>, h: Heap<T>, x: Input<T>): Outcome<T>
  {
    match op
    case TransformOp(f) => Transform(f, x)
    case AndThenOp(g) => AndThen(g, h, x)
    case OrElseOp(fb) => OrElse(fb, h, x)
  }

  /** What is handed from one stage to the next: the storage, the optional just
      produced, and the number of callable invocations so far. */
  datatype Stage<T> = Stage(heap: Heap<T>, input: Input<T>, calls: nat)

  /** Runs one operator and materialises its result as a new temporary object, which
      the next operator receives. Storage that existed before is untouched. */
  function Advance<T>(op: Operator<T>, st: Stage<T>): (r: Stage<T>)
    ensures r.input.opt == Run(op, st.heap, st.input).result
    ensures r.calls == st.calls + Run(op, st.heap, st.input).calls
    ensures Good(st.heap) ==> Good(r.heap) && StoredAt(r.heap, r.input)
    ensures Good(st.heap) ==> r.input.home !in st.heap.cells
    ensures Good(st.heap) ==>
              forall a: Addr :: a.loc in st.heap.cells ==> Deref(r.heap, a) == Deref(st.heap, a)
  {
    var out := Run(op, st.heap, st.input);
    var (h, l) := Alloc(st.heap, OptionalCell(out.result));
    Stage(h, Input(out.result, l), st.calls + out.calls)
  }

  /** An operator as a stage-to-stage function. */
  function Step<T>(op: Operator<T>): Stage<T> -> Stage<T>
  {
    (st: Stage<T>) => Advance(op, st)
  }

  /** The operators of a pipeline as stage-to-stage functions. */
  function Steps<T>(ops: seq<Operator<T>>): seq<Stage<T> -> Stage<T>>
  {
    seq(|ops|, i requires 0 <= i < |ops| => Step(ops[i]))
  }

  /** resolve over the library's operators. */
  function Evaluate<T>(st: Stage<T>, ops: seq<Operator<T>>): (r: Stage<T>)
    requires |ops| >= 1
    ensures r == Chain(st, Steps(ops))
  {
    Resolve(st, Steps(ops))
  }

  /** resolve(x, a, b) with library operators is b applied to a's materialised result. */
  lemma EvaluateTwo<T>(st: Stage<T>, a: Operator<T>, b: Operator<T>)
    ensures Evaluate(st, [a, b]) == Advance(b, Advance(a, st))
  {
    var steps := Steps([a, b]);
    assert steps[0] == Step(a) && steps[1] == Step(b);
    ResolveTwo(st, steps[0], steps[1]);
    assert steps == [steps[0], steps[1]];
  }

  /** resolve(x, a, b, c) with library operators runs a, then b, then c. */
  lemma EvaluateThree<T>(st: Stage<T>, a: Operator<T>, b: Operator<T>, c: Operator<T>)
    ensures Evaluate(st, [a, b, c]) == Advance(c, Advance(b, Advance(a, st)))
  {
    var steps := Steps([a, b, c]);
    assert steps[0] == Step(a) && steps[1] == Step(b) && steps[2] == Step(c);
    assert steps == [steps[0]] + [steps[1], steps[2]];
    ResolveSplit(st, [steps[0]], [steps[1], steps[2]]);
    ResolveTwo(Resolve(st, [steps[0]]), steps[1], steps[2]);
  }

  /** Emptiness in, emptiness out: a pipeline of transform and and_then operators maps
      an empty optional to an empty one without invoking any callable. Only or_else
      recovers from emptiness; resolve itself has no short-circuit of its own. */
  lemma EmptyPropagates<T>(st: Stage<T>, ops: seq<Operator<T>>)
    requires |ops| >= 1
    requires st.input.opt.None?
    requires forall i :: 0 <= i < |ops| ==> !ops[i].OrElseOp?
    ensures Evaluate(st, ops).input.opt.None?
    ensures Evaluate(st, ops).calls == st.calls
  {
    var inv := (s: Stage<T>) => s.input.opt.None? && s.calls == st.calls;
    var steps := Steps(ops);
    forall i, y | 0 <= i < |steps| && inv(y)
      ensures inv(steps[i](y))
    {
      assert steps[i] == Step(ops[i]);
    }
    ResolveKeeps(st, steps, inv);
  }

  /** `s` extends the storage of `st`: well-formed, and every object of `st` is still
      there with the same contents. */
  ghost predicate Extends<T>(st: Stage<T>, s: Stage<T>)
  {
    && Good(s.heap)
    && (forall l :: l in st.heap.cells ==> l in s.heap.cells)
    && (forall a: Addr :: a.loc in st.heap.cells ==> Deref(s.heap, a) == Deref(st.heap, a))
  }

  /** One stage extends the storage it receives and stores its result at its home. */
  lemma AdvanceExtends<T>(st: Stage<T>, op: Operator<T>, y: Stage<T>)
    requires Extends(st, y)
    ensures Extends(st, Advance(op, y))
    ensures StoredAt(Advance(op, y).heap, Advance(op, y).input)
  {
  }

  /** A pipeline started from well-formed storage ends in well-formed storage, with its
      result stored at its home location, and leaves every object that existed before
      (the caller's variables) exactly as it was. */
  lemma StorageKept<T>(st: Stage<T>, ops: seq<Operator<T>>)
    requires |ops| >= 1
    requires Good(st.heap)
    ensures Good(Evaluate(st, ops).heap)
    ensures StoredAt(Evaluate(st, ops).heap, Evaluate(st, ops).input)
    ensures forall a: Addr :: a.loc in st.heap.cells ==>
              Deref(Evaluate(st, ops).heap, a) == Deref(st.heap, a)
  {
    var inv := (s: Stage<T>) => Extends(st, s);
    var steps := Steps(ops);
    var init := steps[..|ops| - 1];
    forall i, y | 0 <= i < |init| && inv(y)
      ensures inv(init[i](y))
    {
      assert init[i] == Step(ops[i]);
      AdvanceExtends(st, ops[i], y);
    }
    ChainKeeps(st, init, inv);
    var before := Chain(st, init);
    assert steps[|ops| - 1] == Step(ops[|ops| - 1]);
    assert Evaluate(st, ops) == Advance(ops[|ops| - 1], before);
    AdvanceExtends(st, ops[|ops| - 1], before);
  }
}
