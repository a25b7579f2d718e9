/** How the combinators relate to the textbook operations on an optional, to each
    other, and to storage: the functor and monad laws, the independence of or_else's
    present branch from its fallback, and the aliasing every reference shape creates. */
module Laws {
  import opened Optional
  import opened Memory
  import opened Shapes
  import opened Combinators

  /** transform is the functor map of the element f's result lifts to. */
  lemma TransformIsMap<T>(f: (Elem<T>, Addr) -> ValueShape<T>, x: Input<T>)
    ensures Transform(f, x).result == Map(x.opt, e => Lift(f(e, Forwarded(x))))
  {
  }

  /** and_then is monadic bind of the optional f's result unwraps to. */
  lemma AndThenIsBind<T>(f: (Elem<T>, Addr) -> OptionalShape<T>, h: Heap<T>, x: Input<T>)
    ensures AndThen(f, h, x).result == Bind(x.opt, e => Unwrap(h, f(e, Forwarded(x))))
  {
  }

  /** When a present input already has or_else's result element type, or_else is the
      choice between the input and what the fallback recovers. */
  lemma OrElseIsOr<T>(fb: Fallback<T>, h: Heap<T>, x: Input<T>)
    requires x.opt.Some? ==> Depth(x.opt.value) == ResultDepth(fb)
    ensures OrElse(fb, h, x).result == Or(x.opt, Recover(h, fb.call()))
  {
  }

  /** transform is and_then with a callable that wraps its result into a present
      optional. */
  lemma TransformViaAndThen<T>(f: (Elem<T>, Addr) -> ValueShape<T>, h: Heap<T>, x: Input<T>)
    ensures Transform(f, x) == AndThen((e, a) => Opt(Some(Lift(f(e, a)))), h, x)
  {
  }

  /** Functor identity: transforming with a callable that returns its argument by value
      changes nothing. */
  lemma TransformIdentity<T>(x: Input<T>)
    ensures Transform((e: Elem<T>, a: Addr) => Val(e), x).result == x.opt
  {
  }

  /** Monad left identity: and_then on a present value is the callable's own result. */
  lemma AndThenLeftIdentity<T>(f: (Elem<T>, Addr) -> OptionalShape<T>, h: Heap<T>, e: Elem<T>, home: Loc)
    ensures AndThen(f, h, Input(Some(e), home)).result == Unwrap(h, f(e, Inner(home)))
  {
  }

  /** Monad right identity: and_then with a callable that re-wraps its argument changes
      nothing. */
  lemma AndThenRightIdentity<T>(h: Heap<T>, x: Input<T>)
    ensures AndThen((e: Elem<T>, a: Addr) => Opt(Some(e)), h, x).result == x.opt
  {
  }

  /** Functor composition: two transforms in a row, with the first result held in a
      temporary object at `tmp`, are one transform with the composed callable. */
  lemma TransformCompose<T>(f: (Elem<T>, Addr) -> ValueShape<T>, g: (Elem<T>, Addr) -> ValueShape<T>,
                            x: Input<T>, tmp: Loc)
    ensures Transform(g, Input(Transform(f, x).result, tmp)).result
         == Transform((e, a) => g(Lift(f(e, a)), Inner(tmp)), x).result
  {
  }

  /** Monad associativity: two and_thens in a row are one and_then whose callable runs
      the second on what the first produced. */
  lemma AndThenAssociative<T>(f: (Elem<T>, Addr) -> OptionalShape<T>, g: (Elem<T>, Addr) -> OptionalShape<T>,
                              h: Heap<T>, x: Input<T>, tmp: Loc)
    ensures AndThen(g, h, Input(AndThen(f, h, x).result, tmp)).result
         == Bind(x.opt, e => Bind(Unwrap(h, f(e, Forwarded(x))), e' => Unwrap(h, g(e', Inner(tmp)))))
  {
  }

  /** A present input wins: or_else's result does not depend on what the fallback would
      return, only on its declared result type. */
  lemma PresentInputWins<T>(fb1: Fallback<T>, fb2: Fallback<T>, h: Heap<T>, x: Input<T>)
    requires x.opt.Some?
    requires ResultDepth(fb1) == ResultDepth(fb2)
    ensures OrElse(fb1, h, x) == OrElse(fb2, h, x)
    ensures OrElse(fb1, h, x).calls == 0
  {
  }

  /** An or_else whose fallback returns a value (or a reference to one) always yields a
      present optional, so a second or_else after it never invokes its fallback. */
  lemma OrElseValueRecovers<T>(fb: Fallback<T>, fb2: Fallback<T>, h: Heap<T>, x: Input<T>, tmp: Loc)
    requires fb.call().Plain?
    ensures OrElse(fb, h, x).result.Some?
    ensures OrElse(fb2, h, Input(OrElse(fb, h, x).result, tmp)).calls == 0
  {
  }

  /** Both branches of or_else have one result type: with a well-typed fallback, every
      element or_else yields, kept, aliased or copied from the input or taken from the
      fallback, has exactly the result type's wrapper layers. A wrapper input that the
      result type unwraps must refer to a live owned value, which the copy then is. */
  lemma OrElseOneResultType<T>(fb: Fallback<T>, h: Heap<T>, x: Input<T>)
    requires WellTyped(fb) && !(fb.wrapperValue && fb.declared.reference)
    requires x.opt.Some? && x.opt.value.Wrap? && ResultDepth(fb) == 0 ==>
               Live(h, x.opt.value.to) && Deref(h, x.opt.value.to).value.Own?
    ensures OrElse(fb, h, x).result.Some? ==> Depth(OrElse(fb, h, x).result.value) == ResultDepth(fb)
  {
  }

  /** or_else is idempotent for well-typed fallbacks that do not return references:
      applying it again to its own result changes nothing, whether the first application
      kept the input, wrapped it into an alias of its slot or copied its referent. */
  lemma OrElseIdempotent<T>(fb: Fallback<T>, h: Heap<T>, x: Input<T>, tmp: Loc)
    requires WellTyped(fb) && !fb.declared.reference
    requires x.opt.Some? && x.opt.value.Wrap? && Live(h, x.opt.value.to) ==>
               Deref(h, x.opt.value.to).value.Own?
    ensures OrElse(fb, h, Input(OrElse(fb, h, x).result, tmp)).result == OrElse(fb, h, x).result
  {
  }

  /** When or_else's result type unwraps the input's reference_wrapper (a fallback
      returning a plain value), a present input comes out as a copy of its referent: a
      later write to the referent does not show through it. */
  lemma OrElseCopiesReferent<T>(fb: Fallback<T>, h: Heap<T>, x: Input<T>, w: Elem<T>)
    requires x.opt.Some? && x.opt.value.Wrap?
    requires ResultDepth(fb) == 0
    requires Live(h, x.opt.value.to) && Deref(h, x.opt.value.to).value.Own?
    ensures var r := OrElse(fb, h, x).result;
            && r == Deref(h, x.opt.value.to)
            && Denote(Assign(h, x.opt.value.to, w), r.value) == r
  {
  }

  /** A callable returning a reference makes transform's result an alias: it denotes
      what the referent holds now, and after a write through the result the referent
      holds the written element (and the other way round, since both are one address). */
  lemma TransformRefAliases<T>(f: (Elem<T>, Addr) -> ValueShape<T>, h: Heap<T>, x: Input<T>, w: Elem<T>)
    requires x.opt.Some?
    requires f(x.opt.value, Forwarded(x)).Ref?
    requires Live(h, f(x.opt.value, Forwarded(x)).to)
    ensures var a := f(x.opt.value, Forwarded(x)).to;
            var held := Transform(f, x).result.value;
            && Denote(h, held) == Deref(h, a)
            && held.Wrap? && Deref(Assign(h, held.to, w), a) == Some(w)
            && Denote(Assign(h, a, w), held) == Some(w)
  {
    var a := f(x.opt.value, Forwarded(x)).to;
    WriteVisibleThroughAlias(h, a, w, Transform(f, x).result.value);
  }

  /** A callable returning a plain owned value makes transform's result a copy that no
      later write anywhere affects. */
  lemma TransformValueIsCopy<T>(f: (Elem<T>, Addr) -> ValueShape<T>, h: Heap<T>, x: Input<T>, a: Addr, w: Elem<T>)
    requires x.opt.Some?
    requires f(x.opt.value, Forwarded(x)).Val? && f(x.opt.value, Forwarded(x)).e.Own?
    requires Live(h, a)
    ensures Denote(Assign(h, a, w), Transform(f, x).result.value) == Some(f(x.opt.value, Forwarded(x)).e)
  {
  }

  /** A callable returning a reference to its own argument makes transform's result
      an alias to the input's stored value. */
  lemma TransformForwardedRef<T>(h: Heap<T>, x: Input<T>)
    requires x.opt.Some? && x.opt.value.Own?
    requires StoredAt(h, x)
    ensures var r := Transform((e: Elem<T>, a: Addr) => Ref(a), x).result;
            r == Some(Wrap(Inner(x.home))) && Denote(h, r.value) == x.opt
  {
  }

  /** A reference to a present optional makes and_then's result an alias to that
      optional's value: writing through the result changes the referenced optional. */
  lemma AndThenRefAliases<T>(f: (Elem<T>, Addr) -> OptionalShape<T>, h: Heap<T>, x: Input<T>, w: Elem<T>)
    requires x.opt.Some?
    requires f(x.opt.value, Forwarded(x)).OptRef?
    requires Live(h, Inner(f(x.opt.value, Forwarded(x)).at))
    ensures var l := f(x.opt.value, Forwarded(x)).at;
            var r := AndThen(f, h, x).result;
            && r == Some(Wrap(Inner(l)))
            && Denote(h, r.value) == Deref(h, Inner(l))
            && h.cells[l] == OptionalCell(Deref(h, Inner(l)))
            && Assign(h, r.value.to, w).cells[l] == OptionalCell(Some(w))
  {
  }

  /** When or_else's result type wraps the input's element once more (a fallback
      declared to return a reference), a present input comes out as an alias to the
      input's own stored value: it denotes that value, and writing through it changes
      the input object. */
  lemma OrElseAliasesInput<T>(fb: Fallback<T>, h: Heap<T>, x: Input<T>, w: Elem<T>)
    requires x.opt.Some?
    requires ResultDepth(fb) == Depth(x.opt.value) + 1
    requires StoredAt(h, x)
    ensures var r := OrElse(fb, h, x).result;
            && r == Some(Wrap(Inner(x.home)))
            && Denote(h, r.value) == x.opt
            && Assign(h, r.value.to, w).cells[x.home] == OptionalCell(Some(w))
  {
  }
}
