/** The three operator constructors of the library: transform, and_then and or_else.
    Each takes a callable and yields an operator on an optional; here the operator is
    a function of the storage, the input optional and (for and_then and or_else) the
    storage its references point into. */
module Combinators {
  import opened Optional
  import opened Memory
  import opened Shapes

  /** The optional an operator receives: its contents, and the location of the optional
      object itself, so that its contained value has the address Inner(home). */
  datatype Input<T> = Input(opt: Option<Elem<T>>, home: Loc)

  /** What one application of an operator yields: the returned optional, and how many
      times the wrapped callable was invoked. */
  datatype Outcome<T> = Outcome(result: Option<Elem<T>>, calls: nat)

  /** The address of the input's contained value, which the callable receives by
      forwarding reference (`x.value()`). */
  function Forwarded<T>(x: Input<T>): Addr
  {
    Inner(x.home)
  }

  /** The input object really is stored at its home location. */
  ghost predicate StoredAt<T>(h: Heap<T>, x: Input<T>)
  {
    x.home in h.cells && h.cells[x.home] == OptionalCell(x.opt)
  }

  /** transform(f): an empty input gives an empty result without calling f; a present
      input is fed to f exactly once, and the result holds f's value, or an alias to
      the storage f's reference names. */
  function Transform<T>(f: (Elem<T>, Addr) -> ValueShape<T>, x: Input<T>): (r: Outcome<T>)
    ensures r.result.Some? <==> x.opt.Some?
    ensures r.calls == if x.opt.Some? then 1 else 0
    ensures x.opt.Some? && f(x.opt.value, Forwarded(x)).Val? ==>
              r.result.value == f(x.opt.value, Forwarded(x)).e
    ensures x.opt.Some? && f(x.opt.value, Forwarded(x)).Ref? ==>
              r.result.value == Wrap(f(x.opt.value, Forwarded(x)).to)
  {
    match x.opt
    case None => Outcome(None, 0)
    case Some(e) => Outcome(Some(Lift(f(e, Forwarded(x)))), 1)
  }

  /** and_then(f): an empty input gives an empty result without calling f. A present
      input is fed to f exactly once; an optional f returns is the result as it is
      (so f's emptiness propagates), and a reference to an optional becomes an alias to
      that optional's value, or empty when that optional is empty. */
  function AndThen<T>(f: (Elem<T>, Addr) -> OptionalShape<T>, h: Heap<T>, x: Input<T>): (r: Outcome<T>)
    ensures x.opt.None? ==> r.result.None? && r.calls == 0
    ensures x.opt.Some? ==> r.calls == 1
    ensures x.opt.Some? && f(x.opt.value, Forwarded(x)).Opt? ==>
              r.result == f(x.opt.value, Forwarded(x)).o
    ensures x.opt.Some? && f(x.opt.value, Forwarded(x)).OptRef? ==>
              var l := f(x.opt.value, Forwarded(x)).at;
              (r.result.Some? <==> Live(h, Inner(l))) &&
              (r.result.Some? ==> r.result.value == Wrap(Inner(l)))
  {
    match x.opt
    case None => Outcome(None, 0)
    case Some(e) => Outcome(Unwrap(h, f(e, Forwarded(x))), 1)
  }

  /** The fallback of or_else: its declared return type, as decltype(f()) tells the
      source without calling f, and the callable itself. The declared type is the two
      type traits (`declared`) and whether the value type U it names is itself a
      std::reference_wrapper (`wrapperValue`). */
  datatype Fallback<T> = Fallback(declared: Kind, wrapperValue: bool, call: () -> Shape<T>)

  /** How many reference_wrapper layers an element's type has: 0 for an owned value,
      1 for a wrapper. */
  function Depth<T>(e: Elem<T>): nat
  {
    if e.Wrap? then 1 else 0
  }

  /** The reference_wrapper layers of or_else's result element type: one for a fallback
      declared to return a reference, one more when its value type is a wrapper. */
  function ResultDepth<T>(fb: Fallback<T>): nat
  {
    (if fb.declared.reference then 1 else 0) + (if fb.wrapperValue then 1 else 0)
  }

  /** The declared type is the type of what the callable returns: the same traits, and
      a wrapper value type exactly when the values it returns are wrappers. */
  predicate WellTyped<T>(fb: Fallback<T>)
  {
    && KindOf(fb.call()) == fb.declared
    && match fb.call()
       case Plain(Val(e)) => Depth(e) == (if fb.wrapperValue then 1 else 0)
       case Maybe(Opt(Some(e))) => Depth(e) == (if fb.wrapperValue then 1 else 0)
       case _ => true
  }

  /** The present input converted to or_else's result element type, as the construction
      `optional<R>{x.value()}` does. The same type keeps the element. One layer more
      wraps the input's own stored value, which makes an alias to it and not a copy.
      One layer fewer reads through the input's wrapper, which makes a copy of the
      referent. */
  function Keep<T>(fb: Fallback<T>, h: Heap<T>, x: Input<T>): (r: Elem<T>)
    requires x.opt.Some?
    ensures ResultDepth(fb) == Depth(x.opt.value) ==> r == x.opt.value
    ensures ResultDepth(fb) == Depth(x.opt.value) + 1 ==> r == Wrap(Forwarded(x))
    ensures ResultDepth(fb) == Depth(x.opt.value) + 1 && StoredAt(h, x) ==> Denote(h, r) == x.opt
    ensures ResultDepth(fb) + 1 == Depth(x.opt.value) && Live(h, x.opt.value.to) ==>
              Some(r) == Denote(h, x.opt.value)
  {
    var e := x.opt.value;
    if ResultDepth(fb) == Depth(e) then e
    else if ResultDepth(fb) > Depth(e) then Wrap(Forwarded(x))
    else match Deref(h, e.to)
      case Some(v) => v
      case None => e
  }

  /** The optional built from the fallback's result once it has been called: a value
      result is present and a reference result denotes its referent; a plain optional
      passes through; a reference to an optional is present exactly when that optional
      is, and then denotes its value. */
  function Recover<T>(h: Heap<T>, s: Shape<T>): (r: Option<Elem<T>>)
    ensures s.Plain? ==> r.Some?
    ensures s.Plain? && s.v.Val? ==> r.value == s.v.e
    ensures s.Plain? && s.v.Ref? ==> r.value.Wrap? && Denote(h, r.value) == Deref(h, s.v.to)
    ensures s.Maybe? && s.m.Opt? ==> r == s.m.o
    ensures s.Maybe? && s.m.OptRef? ==> (r.Some? <==> Live(h, Inner(s.m.at)))
    ensures s.Maybe? && s.m.OptRef? && r.Some? ==>
              r.value.Wrap? && Denote(h, r.value) == Deref(h, Inner(s.m.at))
  {
    match s
    case Plain(v) => Some(Lift(v))
    case Maybe(m) => Unwrap(h, m)
  }

  /** or_else(f): a present input always wins and f is not invoked. Its element is
      returned as it is when it already has the result type, as an alias to the input's
      stored value when the result type wraps it once more (f declared to return a
      reference), and as a copy of its referent when the result type unwraps it. An
      empty input invokes f once: a value w gives Some(w), a reference an alias, a plain
      optional is returned as it is, and a reference to an optional an alias to its
      value or empty. */
  function OrElse<T>(fb: Fallback<T>, h: Heap<T>, x: Input<T>): (r: Outcome<T>)
    ensures x.opt.Some? ==> r.calls == 0 && r.result.Some?
    ensures x.opt.Some? && Depth(x.opt.value) == ResultDepth(fb) ==> r.result == x.opt
    ensures x.opt.Some? && ResultDepth(fb) == Depth(x.opt.value) + 1 ==>
              r.result == Some(Wrap(Forwarded(x)))
    ensures x.opt.Some? && ResultDepth(fb) + 1 == Depth(x.opt.value) && Live(h, x.opt.value.to) ==>
              r.result == Deref(h, x.opt.value.to)
    ensures x.opt.None? ==> r.calls == 1
    ensures x.opt.None? && fb.call().Plain? && fb.call().v.Val? ==>
              r.result == Some(fb.call().v.e)
    ensures x.opt.None? && fb.call().Plain? && fb.call().v.Ref? ==>
              r.result == Some(Wrap(fb.call().v.to))
    ensures x.opt.None? && fb.call().Maybe? && fb.call().m.Opt? ==>
              r.result == fb.call().m.o
    ensures x.opt.None? && fb.call().Maybe? && fb.call().m.OptRef? ==>
              var l := fb.call().m.at;
              (r.result.Some? <==> Live(h, Inner(l))) &&
              (r.result.Some? ==> r.result.value == Wrap(Inner(l)))
  {
    match x.opt
    case Some(_) => Outcome(Some(Keep(fb, h, x)), 0)
    case None => Outcome(Recover(h, fb.call()), 1)
  }
}
