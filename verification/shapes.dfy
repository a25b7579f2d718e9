/** The closed set of result shapes a wrapped callable can have, and how each is
    turned into the optional a combinator returns. In the source this is compile-time
    dispatch on decltype(f(...)) through std::is_reference_v and the is_optional trait. */
module Shapes {
  import opened Optional
  import opened Memory

  /** A callable that returns a value (`U`) or a reference to one (`U&`). */
  datatype ValueShape<T> = Val(e: Elem<T>) | Ref(to: Addr)

  /** A callable that returns an optional (`optional<U>`) or a reference to the optional
      object stored at a location (`optional<U>&`). */
  datatype OptionalShape<T> = Opt(o: Option<Elem<T>>) | OptRef(at: Loc)

  /** Any of the four shapes; `Maybe?` is the is_optional trait. */
  datatype Shape<T> = Plain(v: ValueShape<T>) | Maybe(m: OptionalShape<T>)

  /** The declared return type of a callable, as the two type traits see it. */
  datatype Kind = Kind(optional: bool, reference: bool)

  function KindOf<T>(s: Shape<T>): Kind
  {
    match s
    case Plain(v) => Kind(false, v.Ref?)
    case Maybe(m) => Kind(true, m.OptRef?)
  }

  /** The element of `optional<OptionalResultType>` built from a value-shaped result: a
      value is owned by the new optional, a reference becomes a reference_wrapper to the
      very same address (an alias, never a copy). */
  function Lift<T>(s: ValueShape<T>): Elem<T>
  {
    match s
    case Val(e) => e
    case Ref(a) => Wrap(a)
  }

  /** What the lifted element stands for: an owned value result denotes itself in any
      storage; a value result that is itself a reference_wrapper, and a reference
      result, denote whatever their referent holds, now or after a write. */
  lemma LiftDenotes<T>(h: Heap<T>, s: ValueShape<T>)
    ensures s.Val? && s.e.Own? ==> Denote(h, Lift(s)) == Some(s.e)
    ensures s.Val? && s.e.Wrap? ==> Denote(h, Lift(s)) == Deref(h, s.e.to)
    ensures s.Ref? ==> Denote(h, Lift(s)) == Deref(h, s.to)
  {
  }

  /** The optional produced from an optional-shaped result. A plain optional passes
      through as it is, its emptiness included. A reference to an optional is not
      passed on: it becomes an alias to the referenced optional's contained value when
      that optional holds one, and empty otherwise. */
  function Unwrap<T>(h: Heap<T>, s: OptionalShape<T>): (r: Option<Elem<T>>)
    ensures s.Opt? ==> r == s.o
    ensures s.OptRef? ==> (r.Some? <==> Live(h, Inner(s.at)))
    ensures s.OptRef? && r.Some? ==> r.value == Wrap(Inner(s.at))
    ensures s.OptRef? && r.Some? ==> Denote(h, r.value) == Deref(h, Inner(s.at))
  {
    match s
    case Opt(o) => o
    case OptRef(l) =>
      if Live(h, Inner(l)) then Some(Wrap(Inner(l))) else None
  }
}
