# Boost.Hana `Optional` and the default MonadPlus algorithms, in Dafny

This project models two pure pieces of Boost.Hana, a compile-time functional
programming library for C++:

- **`Optional`** (`include/boost/hana/optional.hpp`): a value that is either
  `nothing` or `just(x)`, with its instances of Comparable (`equal`), Orderable
  (`less`, nothing first), Functor (`transform`), Applicative (`lift`, `ap`),
  Monad (`flatten`), MonadPlus (left-biased `concat`, `empty = nothing`),
  Foldable (`unpack`) and Searchable (`find_if`, `any_of`), plus the helpers
  `is_just`, `is_nothing`, `from_maybe`, `from_just` and `only_when`.
- **The default MonadPlus algorithms** (`include/boost/hana/monad_plus.hpp`):
  `prepend`, `append`, `filter`, `cycle` (through `cycle_helper`), `repeat`,
  `prefix` and `suffix`. Each is built from a data type's `concat`, `empty`,
  `lift` and `bind`, and `repeat`, `prefix` and `suffix` also go through the
  defaults of `cycle`, `append` and `prepend` (see "## Left out"). The rule
  `models<MonadPlus, M>` is also modelled.

In the library, `nothing` and `just(x)` are different C++ types and every
operation picks its case by overload resolution at compile time. Here they are
the two constructors of `datatype Opt<T> = Nothing | Just(val: T)`, and each
operation is a case split. Type-level booleans (`true_`, `false_`, `bool_<b>`)
are `bool`. The compile-time count of `cycle` and `repeat` is a `nat`.

The defaults in `monad_plus.hpp` are written for any data type `M`. Here they
are functions over a record `Ops<M, T>` that holds `concat`, `empty`, `lift` and
`bind`. They are proved correct generically, then instantiated twice:

- at finite sequences, the list monad (`ListInstance`);
- at `Opt` (`OptionalInstance`).

The central result is `MonadPlus.CycleIsNFold`. `cycle_helper` halves n and
doubles `xs` when n is even, and peels off one copy when n is odd. The lemma
proves that this equals `xs` concatenated with itself n times, for every data
type whose `concat` is associative. The unit laws of `empty` are needed for the
follow-up facts: one cycle is `xs`, and m + n cycles are m cycles followed by n.

Files:

- `optional.dfy`: module `Optional`.
- `monad_plus.dfy`: module `MonadPlus`, the generic defaults and their lemmas.
- `list_instance.dfy`: module `ListInstance`.
- `optional_instance.dfy`: module `OptionalInstance`.

Payload equality and payload order are parameters (`eq`, `lt`) of `Equal` and
`Less`, because the library compares the contents of two just values with the
generic `hana::equal` and `hana::less`.

## Model

| member | source | states |
|---|---|---|
| `Optional.IsJustIffJust` | include/boost/hana/optional.hpp:130-136 | `is_just(m)` holds exactly when `m` is `just(x)` for some `x`; `is_nothing` is always its negation, and holds exactly for nothing |
| `Optional.FromMaybe` | include/boost/hana/optional.hpp:141-145 | `from_maybe(d, m)` is `d` for nothing and the contained value for a just value |
| `Optional.FromJust` | include/boost/hana/optional.hpp:147-153 | `from_just` may only be applied to a just value (precondition); wrapping its result back in `just` gives `m` |
| `Optional.FromMaybeOfJust` | include/boost/hana/optional.hpp:141-153 | on a just value, `from_maybe` ignores its default and agrees with `from_just` |
| `Optional.OnlyWhen` | include/boost/hana/optional.hpp:158-166 | `only_when(pred, f, x)` is a just value exactly when `pred(x)`, and then it holds `f(x)` |
| `Optional.Equal` | include/boost/hana/optional.hpp:201-213 | two just values are equal iff their payloads are; two nothings are equal; a just value never equals nothing |
| `Optional.EqualIsStructural` | include/boost/hana/optional.hpp:201-213 | with payloads compared by `==`, `equal(m, n)` holds iff `m == n` |
| `Optional.EqualIsEquivalence` | include/boost/hana/optional.hpp:201-213 | `equal` is an equivalence relation whenever the payload equality is one |
| `Optional.Less` | include/boost/hana/optional.hpp:218-234 | `nothing < just(x)` always; `nothing < nothing` is false; `just(x) < nothing` is false; `just(x) < just(y)` iff `x < y` |
| `Optional.LessIsStrictOrder` | include/boost/hana/optional.hpp:218-234 | `less` is irreflexive and transitive whenever the payload order is |
| `Optional.LessIsConnected` | include/boost/hana/optional.hpp:218-234 | `less` orders every two distinct optionals one way or the other whenever the payload order does so for payloads |
| `Optional.Transform` | include/boost/hana/optional.hpp:239-249 | `transform` keeps the constructor, and the new payload is `f` of the old one |
| `Optional.TransformIdentity` | include/boost/hana/optional.hpp:239-249 | Functor identity law: transforming by the identity returns `m` |
| `Optional.TransformComposition` | include/boost/hana/optional.hpp:239-249 | Functor composition law: transforming by `g . f` equals transforming by `f` and then by `g` |
| `Optional.Lift` | include/boost/hana/optional.hpp:254-259 | `lift(x)` is a just value holding `x` |
| `Optional.Ap` | include/boost/hana/optional.hpp:261-282 | `ap(f, x)` is a just value iff both arguments are; then it holds the function applied to the value |
| `Optional.ApIdentity` | include/boost/hana/optional.hpp:254-282 | Applicative identity law: `ap(lift(id), x) == x` |
| `Optional.ApHomomorphism` | include/boost/hana/optional.hpp:254-282 | Applicative homomorphism law: `ap(lift(f), lift(x)) == lift(f(x))` |
| `Optional.ApInterchange` | include/boost/hana/optional.hpp:254-282 | Applicative interchange law: `ap(u, lift(y)) == ap(lift(g => g(y)), u)` |
| `Optional.ApComposition` | include/boost/hana/optional.hpp:254-282 | Applicative composition law: applying a lifted composition to `u`, `v`, `w` equals `ap(u, ap(v, w))` |
| `Optional.TransformIsAp` | include/boost/hana/optional.hpp:239-282 | `transform(m, f)` agrees with `ap(lift(f), m)` |
| `Optional.Flatten` | include/boost/hana/optional.hpp:287-293 | `flatten(nothing)` is nothing, and `flatten(just(m))` is `m` |
| `Optional.Bind` | include/boost/hana/optional.hpp:287-293 | `bind(m, f)`, built as `flatten(transform(m, f))`, is nothing for nothing and `f(x)` for `just(x)` |
| `Optional.BindLeftIdentity` | include/boost/hana/optional.hpp:254-293 | Monad left identity law: `bind(lift(x), f) == f(x)` |
| `Optional.BindRightIdentity` | include/boost/hana/optional.hpp:254-293 | Monad right identity law: `bind(m, lift) == m` |
| `Optional.BindAssociative` | include/boost/hana/optional.hpp:239-293 | Monad associativity law for `bind` |
| `Optional.Concat` | include/boost/hana/optional.hpp:298-315 | left-biased `concat`: `concat(nothing, y) == y` and `concat(just(x), y) == just(x)` |
| `Optional.Empty` | include/boost/hana/optional.hpp:317-321 | `empty` is nothing |
| `Optional.ConcatIsMonoid` | include/boost/hana/optional.hpp:298-321 | `concat` is associative and `empty` is its left and right unit |
| `Optional.Unpack` | include/boost/hana/optional.hpp:326-343 | `unpack(m, f)` calls `f` with no elements for nothing and with `x` for `just(x)` |
| `Optional.UnpackHoldsAtMostOne` | include/boost/hana/optional.hpp:326-343 | seen through `unpack`, an optional holds at most one element, exactly one iff it is a just value, and that element is its payload |
| `Optional.FindIf` | include/boost/hana/optional.hpp:348-367 | `find_if(nothing, p)` is nothing; `find_if(just(x), p)` is `just(x)` iff `p(x)` and nothing otherwise |
| `Optional.AnyOf` | include/boost/hana/optional.hpp:369-378 | `any_of(m, p)` is false for nothing and `p(x)` for `just(x)` |
| `Optional.AnyOfIffFindIf` | include/boost/hana/optional.hpp:348-378 | `any_of(m, p)` holds iff `find_if(m, p)` finds a value, and a found value satisfies `p` |
| `MonadPlus.NFoldOfDouble` | include/boost/hana/monad_plus.hpp:127-132 | for associative `concat`, k copies of `concat(xs, xs)` are 2k copies of `xs`: the doubling step of `cycle_helper` |
| `MonadPlus.CycleIsNFold` | include/boost/hana/monad_plus.hpp:116-149 | for associative `concat`, `cycle(n, xs)` computed by halving and peeling equals `xs` concatenated with itself n times |
| `MonadPlus.NFoldSnoc` | include/boost/hana/monad_plus.hpp:113-149 | for a monoid, n + 1 copies are n copies followed by one more |
| `MonadPlus.NFoldLeftIsNFold` | include/boost/hana/monad_plus.hpp:113-149 | for a monoid, folding the n copies from the left or from the right gives the same result |
| `MonadPlus.NFoldAdd` | include/boost/hana/monad_plus.hpp:113-149 | for a monoid, m + n copies are m copies concatenated with n copies |
| `MonadPlus.CycleSplits` | include/boost/hana/monad_plus.hpp:113-149 | for a monoid: `cycle(0, xs)` is `empty`, `cycle(1, xs)` is `xs`, and `cycle(m + n, xs)` is `concat(cycle(m, xs), cycle(n, xs))` |
| `MonadPlus.RepeatIsNFoldOfLift` | include/boost/hana/monad_plus.hpp:154-164 | for associative `concat`, `repeat(n, x)` is n copies of `lift(x)` |
| `MonadPlus.OpsOf` | include/boost/hana/monad_plus.hpp:200-206 | a data type yields a MonadPlus exactly when it models MonadPlus, that is when neither `concat` nor `empty` is the default; the yielded `concat` and `empty` are the provided ones |
| `ListInstance.ListModelsMonadPlus` | include/boost/hana/monad_plus.hpp:200-206 | sequences provide `concat` and `empty`, so they model MonadPlus |
| `ListInstance.PrependList` | include/boost/hana/monad_plus.hpp:56-66 | `prepend(x, xs)` is one element longer than `xs`, starts with `x` and continues with `xs` |
| `ListInstance.AppendList` | include/boost/hana/monad_plus.hpp:71-81 | `append(xs, x)` is one element longer than `xs`, ends with `x` and starts with `xs` |
| `ListInstance.FilterCons` | include/boost/hana/monad_plus.hpp:86-108 | one step of `filter`: the first element is kept iff it satisfies `p`, and the rest is filtered |
| `ListInstance.FilterKeepsExactly` | include/boost/hana/monad_plus.hpp:86-108 | `filter(xs, p)` holds each value satisfying `p` as often as `xs` does and no other value; every kept element satisfies `p`; the result is never longer than `xs` |
| `ListInstance.FilterAppend` | include/boost/hana/monad_plus.hpp:86-108 | `filter` keeps the original order: the filter of `a + b` is the filter of `a` followed by the filter of `b` |
| `ListInstance.FilterAllKept` | include/boost/hana/monad_plus.hpp:86-108 | `filter(xs, p) == xs` iff every element of `xs` satisfies `p` |
| `ListInstance.FilterIdempotent` | include/boost/hana/monad_plus.hpp:86-108 | filtering twice by `p` is filtering once |
| `ListInstance.NFoldList` | include/boost/hana/monad_plus.hpp:113-149 | n copies of `xs` have length n times the length of `xs`, and position i holds `xs[i mod len(xs)]` |
| `ListInstance.CycleList` | include/boost/hana/monad_plus.hpp:113-149 | `cycle(n, xs)` has length n times the length of `xs`, and position i holds `xs[i mod len(xs)]` |
| `ListInstance.RepeatList` | include/boost/hana/monad_plus.hpp:154-164 | `repeat(n, x)` has length n and every position holds `x` |
| `ListInstance.PrefixList` | include/boost/hana/monad_plus.hpp:169-179 | `prefix(z, xs)` is `[z, x1, z, x2, ...]`: length twice the length of `xs`, `z` at even positions and `xs[i]` at position `2i + 1` |
| `ListInstance.SuffixList` | include/boost/hana/monad_plus.hpp:184-195 | `suffix(z, xs)` is `[x1, z, x2, z, ...]`: length twice the length of `xs`, `xs[i]` at position `2i` and `z` at odd positions |
| `OptionalInstance.OptionalModelsMonadPlus` | include/boost/hana/monad_plus.hpp:200-206 | `Optional` provides `concat` and `empty`, so it models MonadPlus |
| `OptionalInstance.OptIsMonoid` | include/boost/hana/optional.hpp:298-321 | the `Optional` primitives satisfy the monoid laws the generic `cycle` lemmas assume |
| `OptionalInstance.PrependOpt` | include/boost/hana/monad_plus.hpp:56-66 | for optionals, `prepend(x, m)` is always `just(x)` |
| `OptionalInstance.AppendOpt` | include/boost/hana/monad_plus.hpp:71-81 | for optionals, `append(m, x)` keeps a just value and turns nothing into `just(x)` |
| `OptionalInstance.FilterOpt` | include/boost/hana/monad_plus.hpp:86-108 | for optionals, the default `filter` coincides with `find_if` |
| `OptionalInstance.CycleOpt` | include/boost/hana/monad_plus.hpp:113-149 | for optionals, `cycle(n, m)` is nothing for n = 0 and `m` otherwise |
| `OptionalInstance.RepeatOpt` | include/boost/hana/monad_plus.hpp:154-164 | for optionals, `repeat(n, x)` is `just(x)` when n >= 1 and nothing when n = 0 |
| `OptionalInstance.PrefixOpt` | include/boost/hana/monad_plus.hpp:169-179 | for optionals, `prefix(z, m)` replaces the payload of a just value by `z` and leaves nothing alone |
| `OptionalInstance.SuffixOpt` | include/boost/hana/monad_plus.hpp:184-195 | for optionals, `suffix(z, m)` is `m` |

## Left out

- Generic dispatch: `when<condition>` fallthrough, `default_`, `is_default` and the `datatype<...>` trait are C++ template-specialisation resolution. Only its result for MonadPlus is modelled: the `Impl` datatype records whether a primitive is provided or default, and `ModelsMonadPlus`/`OpsOf` apply the `models<MonadPlus, M>` rule.
- `maybe_detail::nested_type`, `make<Optional>`, the operator-enabling traits (`comparable_operators`, `orderable_operators`, `monad_operators`), `operator*`, `operator->` and the defaulted constructors: type plumbing with no behaviour beyond the two constructors.
- `sfinae` (`maybe_detail::sfinae_impl`): its result depends on whether a C++ expression compiles, which has no counterpart here.
- The lvalue, const-lvalue and rvalue overloads of `concat`, `unpack` and `find_if`: one case per constructor is modelled.
- `hana::maybe` is defined in include/boost/hana/fwd/optional.hpp, which is not part of this model; `Optional.Maybe` follows its meaning (`d` for nothing, `f(x)` for `just(x)`).
- The Monad default `bind` (`flatten` after `transform`) lives in include/boost/hana/monad.hpp, which is not part of this model; `Optional.Bind` is written that way.
- Heterogeneity: in the library `just(x)` and `just(y)` may hold values of different types. `equal` and `less` compare them across types, `concat(just(x), y)` returns `just(x)` whatever the type of `y`, and the default of `from_maybe` may have a type other than the payload's. Here `Equal`, `Less`, `Concat` and `FromMaybe` use one payload type `T` for both sides.
- The default `repeat` calls the dispatched `cycle`, and the defaults `prefix` and `suffix` call the dispatched `append` and `prepend`; a data type may override each of these. The model uses the default `Cycle`, `Append` and `Prepend`, so `Repeat`, `Prefix` and `Suffix` describe a data type that overrides none of them.
- The library's own sequence data types (tuples) are not part of this model. Finite sequences with `+`, `[]`, `[x]` and concatenated mapping serve as the list-monad instance of the defaults.
- `cycle` counts with `std::size_t`; the model uses an unbounded `nat`.
