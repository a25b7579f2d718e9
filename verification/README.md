# Monadic operations over std::optional — a Dafny model

The library is one C++17 header, `monadic_operations/monadic_operations.hpp`. It
provides three operator constructors and a pipeline composer:

- `transform(f)` lifts a function over an optional.
- `and_then(f)` chains a function that itself returns an optional.
- `or_else(f)` supplies a fallback when the optional is empty.
- `resolve(x, op...)` applies the operators left to right.

Each constructor dispatches at compile time on the shape of what `f` returns: a
value, a reference to a value, an optional, or a reference to an optional. A
reference never produces a copy. It produces an optional holding a
`std::reference_wrapper`, which aliases the referenced storage.

The model is written in the same terms:

- `Optional.Option` is `std::optional`. `Map`, `Bind` and `Or` are the textbook
  operations the combinators are compared with.
- `Memory` is a small heap of objects (plain variables and optional variables) at
  locations. A reference is an `Addr`: the object at a location (`Whole`), or the value
  inside the optional at a location (`Inner`). An optional holds an `Elem`: a value
  it owns (`Own`) or a `reference_wrapper` to an address (`Wrap`). Two references
  alias exactly when they carry the same address.
- `Shapes` is the closed set of callable result shapes. `ValueShape` is `Val | Ref`,
  `OptionalShape` is `Opt | OptRef`, and `Shape` is either. `Shape.Maybe?` plays the
  `is_optional` trait for a non-const optional, and `Kind` records the two type traits
  the source consults. An or_else fallback also declares whether its value type is
  itself a `reference_wrapper`. Together with the traits, this fixes how many wrapper
  layers or_else's result element has, and so how a present input is converted.
- `Combinators` holds `Transform`, `AndThen` and `OrElse`. Each takes the callable and
  the input optional. The input is its contents plus the location of the optional
  object, because the callable receives `x.value()` by reference. Each returns the
  result optional and the number of times the callable was invoked.
- `Pipeline` holds `Resolve`, the generic left fold over a non-empty sequence of
  operators, and `Evaluate`, which instantiates it with the library's operators.
  Each stage's result is stored as a new temporary object before the next operator
  receives it.
- `Laws` relates the combinators to `Map`, `Bind` and `Or` and to each other, and
  states the aliasing guarantees in terms of writes to storage.
- `Scenarios` restates the test suite's examples over integers.

The header tests `std::is_reference_v`, which is true for rvalue references too, so a
callable returning an rvalue reference is treated like any other reference and every
reference shape is modelled as an alias. The test `AndThenReturnRValRefTest`
(tests/and_then_tests.cpp:136-152) expects a move instead. It also reads `x.value` in
its second stage, where the header hands that stage a `reference_wrapper`. That test
does not compile against this header, and the model follows the header.

## Model

| member | source | states |
|---|---|---|
| Memory.Assign | tests/transform_tests.cpp:9-13 | writing through a reference stores the element at that address and no other address reads differently |
| Memory.Alloc | monadic_operations/monadic_operations.hpp:118-121 | a temporary object gets a fresh location holding its contents, and every existing object reads the same afterwards |
| Memory.WriteVisibleThroughAlias | tests/transform_tests.cpp:9-13 | after a write through an address, a reference_wrapper to it denotes the new element, while an owned element is unaffected |
| Shapes.LiftDenotes | monadic_operations/monadic_operations.hpp:14-18 | the element built from an owned value result denotes that value in any storage; the one built from a reference result, or from a value that is itself a reference_wrapper, denotes whatever the referent holds |
| Shapes.Unwrap | monadic_operations/monadic_operations.hpp:44-46 | a plain optional passes through unchanged; a reference to an optional gives an alias to its value exactly when that optional is present, otherwise empty |
| Combinators.Transform | monadic_operations/monadic_operations.hpp:11-24 | result present iff input present; the callable runs once on a present input and never on an empty one; value results are held, reference results aliased |
| Combinators.AndThen | monadic_operations/monadic_operations.hpp:32-54 | empty input gives empty without a call; present input calls once; a plain optional result is returned as it is, its emptiness included; a reference to an optional gives an alias to its value or empty |
| Combinators.Keep | monadic_operations/monadic_operations.hpp:82-103 | a present input converted to the result element type: kept when the types agree, an alias denoting the input's own stored value when wrapped once more, a copy of the referent when unwrapped |
| Combinators.Recover | monadic_operations/monadic_operations.hpp:86-104 | the fallback's result: a value is present, a reference denotes its referent, a plain optional passes through, a reference to an optional is present exactly when that optional is and then denotes its value |
| Combinators.OrElse | monadic_operations/monadic_operations.hpp:72-107 | a present input wins with no call: kept as is when it has the result element type, an alias to its stored value when the result type wraps it once more, a copy of its referent when the result type unwraps it; an empty input calls the fallback once and gives Some(w), an alias, the optional itself, or an alias to the referenced optional's value or empty |
| Pipeline.ChainFront | monadic_operations/monadic_operations.hpp:118-121 | the chain of operators equals running the rest of the chain on the first operator's output |
| Pipeline.ChainAppend | monadic_operations/monadic_operations.hpp:113-121 | running two operator sequences in one chain equals running the second on the first's result |
| Pipeline.Resolve | monadic_operations/monadic_operations.hpp:113-121 | resolve with one or more operators equals the reference left-to-right chain |
| Pipeline.ResolveTwo | monadic_operations/monadic_operations.hpp:113-121 | resolve(x, a, b) is b(a(x)) |
| Pipeline.ResolveSplit | monadic_operations/monadic_operations.hpp:113-121 | resolve over p followed by q equals resolving q on the result of resolving p |
| Pipeline.ChainKeeps | monadic_operations/monadic_operations.hpp:113-121 | a property every operator preserves holds after any number of operators |
| Pipeline.ResolveKeeps | monadic_operations/monadic_operations.hpp:113-121 | a property every operator preserves holds of resolve's result |
| Pipeline.Advance | monadic_operations/monadic_operations.hpp:118-121 | a stage passes on exactly the operator's result and call count, stored as a fresh temporary, leaving earlier storage untouched |
| Pipeline.Evaluate | monadic_operations/monadic_operations.hpp:113-121 | resolve over the library's operators is the reference chain of their stages, each materialising its result as a temporary |
| Pipeline.EvaluateTwo | monadic_operations/monadic_operations.hpp:113-121 | a two-operator pipeline runs the first operator and then the second on its result |
| Pipeline.EvaluateThree | monadic_operations/monadic_operations.hpp:113-121 | a three-operator pipeline runs its operators strictly in order |
| Pipeline.EmptyPropagates | monadic_operations/monadic_operations.hpp:11-54 | a pipeline of transform and and_then operators maps an empty optional to an empty one and invokes no callable |
| Pipeline.AdvanceExtends | monadic_operations/monadic_operations.hpp:118-121 | one stage keeps storage well formed, keeps every earlier object, and stores its result at its home |
| Pipeline.StorageKept | monadic_operations/monadic_operations.hpp:113-121 | a whole pipeline keeps storage well formed, leaves the caller's objects unchanged, and stores its result |
| Laws.TransformIsMap | monadic_operations/monadic_operations.hpp:20-22 | transform is the functor map of the lifted callable |
| Laws.AndThenIsBind | monadic_operations/monadic_operations.hpp:43-52 | and_then is monadic bind of the unwrapped callable result |
| Laws.OrElseIsOr | monadic_operations/monadic_operations.hpp:90-104 | when a present input already has the result element type, or_else is the choice between the input and the recovered fallback |
| Laws.TransformViaAndThen | monadic_operations/monadic_operations.hpp:11-54 | transform equals and_then with a callable wrapping its result in a present optional |
| Laws.TransformIdentity | monadic_operations/monadic_operations.hpp:20-22 | transform with an identity callable returns the input's contents |
| Laws.AndThenLeftIdentity | monadic_operations/monadic_operations.hpp:43-49 | and_then on a present value is the callable's own unwrapped result |
| Laws.AndThenRightIdentity | monadic_operations/monadic_operations.hpp:43-52 | and_then with a re-wrapping callable returns the input's contents |
| Laws.TransformCompose | monadic_operations/monadic_operations.hpp:11-24 | two transforms in a row equal one transform with the composed callable |
| Laws.AndThenAssociative | monadic_operations/monadic_operations.hpp:32-54 | two and_thens in a row equal nested binds of the two callables |
| Laws.PresentInputWins | monadic_operations/monadic_operations.hpp:82-103 | on a present input, or_else's outcome depends only on the fallback's declared result type, not on what it returns, and makes no call |
| Laws.OrElseValueRecovers | monadic_operations/monadic_operations.hpp:102-104 | a value fallback always gives a present result, so a later or_else never calls its fallback |
| Laws.OrElseOneResultType | monadic_operations/monadic_operations.hpp:82-104 | with a well-typed fallback, every element or_else yields, kept, aliased or copied from a present input or taken from the fallback, has exactly the result type's wrapper layers |
| Laws.OrElseIdempotent | monadic_operations/monadic_operations.hpp:90-104 | applying a well-typed non-reference or_else to its own result changes nothing, whether it kept the input, aliased its slot or copied its referent |
| Laws.TransformRefAliases | monadic_operations/monadic_operations.hpp:15-21 | a reference result is an alias: it denotes the referent, a write through it changes the referent, and a write to the referent shows through it |
| Laws.TransformValueIsCopy | monadic_operations/monadic_operations.hpp:15-21 | an owned value result is a copy that no later write changes |
| Laws.TransformForwardedRef | tests/transform_tests.cpp:100-110 | a callable returning a reference to its own argument gives an alias to the input's stored value |
| Laws.AndThenRefAliases | monadic_operations/monadic_operations.hpp:44-46 | a reference to a present optional gives an alias to its value, and writing through it changes that optional |
| Laws.OrElseAliasesInput | monadic_operations/monadic_operations.hpp:82-84 | when the result type wraps the input element once more, a present input comes out as an alias to its own stored value, and writing through it changes the input |
| Laws.OrElseCopiesReferent | monadic_operations/monadic_operations.hpp:102-103 | when the result type unwraps the input's reference_wrapper, a present input comes out as a copy of its referent that a later write to the referent does not change |
| Scenarios.SquareTransform | tests/transform_tests.cpp:5-7 | Some(5) squared is Some(25) with one call; empty stays empty with none |
| Scenarios.TransformReferenceToLocal | tests/transform_tests.cpp:9-13 | a reference to a local variable comes out aliased, and writing 6 through it changes the local |
| Scenarios.EvenOrNothing | tests/and_then_tests.cpp:44-53 | even-or-nothing maps Some(3) to empty and Some(4) to Some(4) |
| Scenarios.AndThenReferenceToLocal | tests/and_then_tests.cpp:5-15 | a reference to a local optional comes out as an alias to its value, writing through it changes the local, and empty input stays empty |
| Scenarios.OrElseValues | tests/or_else_tests.cpp:5-21 | or_else(25) fills an empty input, keeps Some(5), and an empty optional fallback leaves the result empty |
| Scenarios.OrElseReferenceWrapperInput | tests/or_else_tests.cpp:9-13 | an `int&` fallback on an empty reference_wrapper optional aliases `five`; a present wrapper to `twenty_five` is kept |
| Scenarios.OrElseReferenceToOptional | tests/or_else_tests.cpp:22-35 | a reference-to-optional fallback aliases the input's own value, and one referring to an empty optional gives empty |
| Scenarios.MultipleResolveCalls | tests/monadic_combination_tests.cpp:17-30 | the three-stage pipelines give Some(13) with two calls and Some(0) with three |
| Scenarios.TransformThenAndThen | tests/monadic_combination_tests.cpp:5-10 | Some(3) through +1 then optional *2 gives Some(8) |
| Scenarios.OrElseThenTransform | tests/or_else_tests.cpp:56-62 | an empty input through or_else(10) then *2 gives Some(20) |

## Left out

- `filter`: the header has only a TODO comment for it, so there is no code to model.
- Copy and move counting: this is C++ constructor instrumentation with no counterpart in a value model.
- Value categories: const versus mutable references and lvalue versus rvalue forwarding are not distinguished. Every reference is an address.
- Type metaprogramming (`decltype`, `std::conditional_t`, perfect forwarding) is modelled as dispatch over the shape datatypes and the declared `Kind`.
- Combinators.OrElse: the element type conversion counts `reference_wrapper` layers on the input's outer element only. An input whose element wraps a location that itself holds a wrapper (`optional<reference_wrapper<reference_wrapper<U>>>`) is judged as one layer.
- Combinators.Keep: the two conversions the source rejects or leaves undefined are given a value rather than a promise. Wrapping an owned value twice does not compile and yields an alias to the input's value. Reading through a dangling wrapper keeps the wrapper.
- Combinators.OrElse: a fallback returning `const std::optional<U>&` is outside the model. `is_optional` is specialised only for `std::optional<T>` (hpp:56-60), so line 75 does not see such an optional as one. The source then takes the value-reference branch (hpp:95-105). Its runtime `if` at hpp:102 instantiates both branches together. Such an or_else therefore does not compile unless the input's value type is itself an optional. When it is, it yields a wrapper to the whole fallback optional, present even when that optional is empty. The comment at hpp:65-70 promises reference-to-optional behaviour with no const exception, so this looks like an unintended gap in the source. The model treats every reference to an optional as `OptRef`.
- Laws.OrElseIsOr: promised only when a present input already has the result element type. When the result type wraps or unwraps the input, the source converts the element (hpp:84, 92, 103) and or_else is no longer the plain choice `Or`.
- Laws.PresentInputWins: promised only for two fallbacks whose result types have the same number of wrapper layers. The conversion of a present input depends on that number, so fallbacks that differ in it give different results.
- Laws.OrElseOneResultType: not promised for a fallback returning a reference to a `reference_wrapper` (two result layers), nor for copying a wrapper input whose referent is dangling or is itself a wrapper. Those are the cases the outer-layer count of Combinators.OrElse does not model.
- Laws.OrElseIdempotent: not promised for a wrapper input whose live referent is itself a wrapper, for the same reason.
- Shapes.Unwrap: a reference to an optional can only name an optional object stored at a heap location (`OptRef(at: Loc)`). An optional held inside another optional (`optional<optional<U>>`) cannot be referenced or tested, because the model's element type holds no optionals.
- Callables see no storage: a callable reads only what it captured when it was built. It cannot read through a `reference_wrapper` argument into temporaries made by earlier stages, and it does not perform the implicit `reference_wrapper` to value conversion a C++ parameter of the value type would.
- Lifetimes: a reference to an optional that no longer exists reads as empty in `Shapes.Unwrap`. The source leaves this undefined. Temporaries in a pipeline are never destroyed in the model.
- Side effects and exceptions of user callables: callables are pure functions. Any state they capture by reference is read from the storage passed to them by their creator. Exceptions would propagate unchanged and are not modelled.
- Heterogeneous variadic `resolve`: modelled over a homogeneous sequence of operators of one stage type.
- Type-changing callables: each combinator maps `Option<Elem<T>>` to `Option<Elem<T>>` for one element type `T`. The source lets a callable change the type, for example from `Foo` to `int` (tests/transform_tests.cpp:30) or from `int` to `Foo` (tests/transform_tests.cpp:34). The model covers such a pipeline only with `T` instantiated as a sum type of all the types involved.
- The source's separate compile errors, such as binding a `reference_wrapper` to an rvalue, are not modelled. Such programs never run.
