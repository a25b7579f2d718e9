/** The scenarios the library's own test suite exercises, stated over the model with
    integer values. Locations 0, 1, ... are the test's local variables. */
module Scenarios {
  import opened Optional
  import opened Memory
  import opened Shapes
  import opened Combinators
  import opened Pipeline

  /** A callable taking an int by value and returning an int by value. Callables see no
      storage here, so a reference_wrapper argument is passed back unchanged rather than
      read through as the C++ conversion to `int` would; the scenarios only feed these
      callables owned values. */
  function IntFn(g: int -> int): (Elem<int>, Addr) -> ValueShape<int>
  {
    (e: Elem<int>, a: Addr) => Val(if e.Own? then Own(g(e.v)) else e)
  }

  /** A callable taking an int by value and returning an optional int. */
  function IntMaybe(g: int -> Option<int>): (Elem<int>, Addr) -> OptionalShape<int>
  {
    (e: Elem<int>, a: Addr) =>
      Opt(if e.Own? then (match g(e.v) case Some(v) => Some(Own(v)) case None => None) else None)
  }

  /** A fallback returning an int by value. */
  function IntFallback(w: int): Fallback<int>
  {
    Fallback(Kind(false, false), false, () => Plain(Val(Own(w))))
  }

  const NoStorage: Heap<int> := Heap(map[], 0)

  /** resolve(Some(5), transform(x * x)) is Some(25); on an empty input it is empty and
      the callable is not invoked. */
  lemma SquareTransform()
    ensures Transform(IntFn(x => x * x), Input(Some(Own(5)), 0)) == Outcome(Some(Own(25)), 1)
    ensures Transform(IntFn(x => x * x), Input(None, 0)) == Outcome(None, 0)
  {
  }

  /** transform with a callable returning `int&` to the local `five` (location 0): the
      result aliases `five`, and writing 6 through it changes `five`. */
  lemma TransformReferenceToLocal()
    ensures var h := Heap(map[0 := ValueCell(Own(5)), 1 := OptionalCell(Some(Own(25)))], 2);
            var r := Transform((e: Elem<int>, a: Addr) => Ref(Whole(0)), Input(Some(Own(25)), 1)).result;
            && r == Some(Wrap(Whole(0)))
            && Denote(h, r.value) == Some(Own(5))
            && Assign(h, r.value.to, Own(6)).cells[0] == ValueCell(Own(6))
  {
  }

  /** and_then with even-or-nothing: Some(3) gives empty, Some(4) gives Some(4). */
  lemma EvenOrNothing()
    ensures AndThen(IntMaybe(x => if x % 2 == 0 then Some(x) else None), NoStorage, Input(Some(Own(3)), 0)).result == None
    ensures AndThen(IntMaybe(x => if x % 2 == 0 then Some(x) else None), NoStorage, Input(Some(Own(4)), 0)).result == Some(Own(4))
  {
  }

  /** and_then with a callable returning a reference to the local optional `maybe_five`
      (location 0): the result aliases its value, and writing 6 through it makes
      `maybe_five` hold 6. An empty input stays empty. */
  lemma AndThenReferenceToLocal()
    ensures var h := Heap(map[0 := OptionalCell(Some(Own(5)))], 1);
            var f := (e: Elem<int>, a: Addr) => OptRef(0);
            var r := AndThen(f, h, Input(Some(Own(25)), 1)).result;
            && r == Some(Wrap(Inner(0)))
            && Denote(h, r.value) == Some(Own(5))
            && Assign(h, r.value.to, Own(6)).cells[0] == OptionalCell(Some(Own(6)))
            && AndThen(f, h, Input(None, 1)).result == None
  {
  }

  /** or_else(25) fills an empty input and leaves Some(5) alone; a fallback returning an
      empty optional leaves the result empty. */
  lemma OrElseValues()
    ensures OrElse(IntFallback(25), NoStorage, Input(None, 0)).result == Some(Own(25))
    ensures OrElse(IntFallback(25), NoStorage, Input(Some(Own(5)), 0)).result == Some(Own(5))
    ensures OrElse(Fallback(Kind(true, false), false, () => Maybe(Opt(None))), NoStorage, Input(None, 0)).result == None
  {
  }

  /** or_else with a fallback returning `int&` to the local `five` (location 0) on an
      optional reference_wrapper input: an empty input (location 2) gives an alias to
      `five`; an input wrapping `twenty_five` (location 1, the optional at location 3)
      already has the result type and is kept, still denoting 25. */
  lemma OrElseReferenceWrapperInput()
    ensures var h := Heap(map[0 := ValueCell(Own(5)), 1 := ValueCell(Own(25)), 2 := OptionalCell(None),
                              3 := OptionalCell(Some(Wrap(Whole(1))))], 4);
            var fb := Fallback(Kind(false, true), false, () => Plain(Ref(Whole(0))));
            var empty := OrElse(fb, h, Input(None, 2)).result;
            var kept := OrElse(fb, h, Input(Some(Wrap(Whole(1))), 3)).result;
            && empty == Some(Wrap(Whole(0))) && Denote(h, empty.value) == Some(Own(5))
            && kept == Some(Wrap(Whole(1))) && Denote(h, kept.value) == Some(Own(25))
  {
  }

  /** or_else with a fallback returning a reference to the local optional `maybe_five`
      (location 0): given `maybe_five` itself as input, the result aliases its own value;
      given the empty local `nothing` (location 1) and a fallback referring to `nothing`,
      the result is empty. */
  lemma OrElseReferenceToOptional()
    ensures var h := Heap(map[0 := OptionalCell(Some(Own(5))), 1 := OptionalCell(None)], 2);
            var fb := Fallback(Kind(true, true), false, () => Maybe(OptRef(0)));
            var r := OrElse(fb, h, Input(Some(Own(5)), 0)).result;
            && r == Some(Wrap(Inner(0)))
            && Assign(h, r.value.to, Own(6)).cells[0] == OptionalCell(Some(Own(6)))
            && OrElse(Fallback(Kind(true, true), false, () => Maybe(OptRef(1))), h, Input(None, 1)).result == None
  {
  }

  function Start(v: Option<int>): Stage<int>
  {
    var o := match v case Some(n) => Some(Own(n)) case None => None;
    Stage(Heap(map[0 := OptionalCell(o)], 1), Input(o, 0), 0)
  }

  /** resolve(Some(5), transform(x * 2), and_then(Some(x + 3)), or_else(0)) is Some(13);
      with and_then returning empty the or_else fallback gives Some(0). */
  lemma MultipleResolveCalls()
    ensures var r := Evaluate(Start(Some(5)), [TransformOp(IntFn(x => x * 2)),
                                              AndThenOp(IntMaybe(x => Some(x + 3))),
                                              OrElseOp(IntFallback(0))]);
            r.input.opt == Some(Own(13)) && r.calls == 2
    ensures var r := Evaluate(Start(Some(5)), [TransformOp(IntFn(x => x * 2)),
                                              AndThenOp(IntMaybe(x => if x < 2 then Some(x + 3) else None)),
                                              OrElseOp(IntFallback(0))]);
            r.input.opt == Some(Own(0)) && r.calls == 3
  {
  }

  /** resolve(Some(3), transform(x + 1), and_then(Some(x * 2))) is Some(8). */
  lemma TransformThenAndThen()
    ensures Evaluate(Start(Some(3)), [TransformOp(IntFn(x => x + 1)), AndThenOp(IntMaybe(x => Some(x * 2)))]).input.opt
            == Some(Own(8))
  {
  }

  /** resolve(empty, or_else(10), transform(x * 2)) is Some(20). */
  lemma OrElseThenTransform()
    ensures Evaluate(Start(None), [OrElseOp(IntFallback(10)), TransformOp(IntFn(x => x * 2))]).input.opt
            == Some(Own(20))
  {
  }
}
