/** The default MonadPlus algorithms: `prepend`, `append`, `filter`, `cycle`,
    `repeat`, `prefix` and `suffix`, derived from a data type's `concat`,
    `empty`, `lift` and `bind`. Where the library's `repeat`, `prefix` and
    `suffix` call the dispatched `cycle`, `append` and `prepend`, the model
    calls the defaults below.

    The library selects these defaults by template specialisation for any
    data type `M`. Here `M` is the type of the containers and `T` the type of
    their elements, and the four primitives of the data type are passed in as
    the record `Ops`. */
module MonadPlus {

  /** The primitives a default is built from: `concat` and `empty` (MonadPlus),
      `lift` (Applicative) and `bind` (Monad). */
  datatype Ops<!M, !T> = Ops(
    concat: (M, M) -> M,
    empty: M,
    lift: T -> M,
    bind: (M, T -> M) -> M)

  /** `concat` is associative. */
  ghost predicate Associative<M(!new), T>(ops: Ops<M, T>)
  {
    forall a, b, c :: ops.concat(ops.concat(a, b), c) == ops.concat(a, ops.concat(b, c))
  }

  /** `empty` is a left and a right unit of `concat`. */
  ghost predicate EmptyIsUnit<M(!new), T>(ops: Ops<M, T>)
  {
    forall a :: ops.concat(ops.empty, a) == a && ops.concat(a, ops.empty) == a
  }

  ghost predicate Monoid<M(!new), T>(ops: Ops<M, T>)
  {
    Associative(ops) && EmptyIsUnit(ops)
  }

  // ---------------------------------------------------------------------
  // The defaults
  // ---------------------------------------------------------------------

  /** `prepend(x, xs) = concat(lift(x), xs)`. */
  function Prepend<M, T>(ops: Ops<M, T>, x: T, xs: M): M
  {
    ops.concat(ops.lift(x), xs)
  }

  /** `append(xs, x) = concat(xs, lift(x))`. */
  function Append<M, T>(ops: Ops<M, T>, xs: M, x: T): M
  {
    ops.concat(xs, ops.lift(x))
  }

  /** The function object `go` partially applied to `p`: `lift(x)` when
      `p(x)` holds and `empty` otherwise. */
  function FilterStep<M, T>(ops: Ops<M, T>, p: T -> bool): T -> M
  {
    (x: T) => if p(x) then ops.lift(x) else ops.empty
  }

  /** `filter(xs, p)` binds every element with `FilterStep`. */
  function Filter<M, T>(ops: Ops<M, T>, xs: M, p: T -> bool): M
  {
    ops.bind(xs, FilterStep(ops, p))
  }

  /** `cycle_helper<M, n>`: nothing for n = 0, the problem halved on a doubled
      `xs` for even n, and one copy peeled off for odd n. */
  function CycleHelper<M, T>(ops: Ops<M, T>, n: nat, xs: M): M
    decreases n
  {
    if n == 0 then ops.empty
    else if n % 2 == 0 then CycleHelper(ops, n / 2, ops.concat(xs, xs))
    else ops.concat(xs, CycleHelper(ops, n - 1, xs))
  }

  /** `cycle(n, xs)` hands the count to `cycle_helper`. */
  function Cycle<M, T>(ops: Ops<M, T>, n: nat, xs: M): M
  {
    CycleHelper(ops, n, xs)
  }

  /** `repeat(n, x) = cycle(n, lift(x))`. */
  function Repeat<M, T>(ops: Ops<M, T>, n: nat, x: T): M
  {
    Cycle(ops, n, ops.lift(x))
  }

  /** `partial(append, lift(z))`: an element `x` becomes `append(lift(z), x)`. */
  function PrefixStep<M, T>(ops: Ops<M, T>, z: T): T -> M
  {
    (x: T) => Append(ops, ops.lift(z), x)
  }

  /** `prefix(z, xs)` binds every element with `PrefixStep`. */
  function Prefix<M, T>(ops: Ops<M, T>, z: T, xs: M): M
  {
    ops.bind(xs, PrefixStep(ops, z))
  }

  /** `partial(flip(prepend), lift(z))`: an element `x` becomes `prepend(x, lift(z))`. */
  function SuffixStep<M, T>(ops: Ops<M, T>, z: T): T -> M
  {
    (x: T) => Prepend(ops, x, ops.lift(z))
  }

  /** `suffix(z, xs)` binds every element with `SuffixStep`. */
  function Suffix<M, T>(ops: Ops<M, T>, z: T, xs: M): M
  {
    ops.bind(xs, SuffixStep(ops, z))
  }

  // ---------------------------------------------------------------------
  // cycle is n-fold concatenation
  // ---------------------------------------------------------------------

  /** The reference meaning of `cycle`: `xs` concatenated with itself n times,
      `concat(xs, concat(xs, ... concat(xs, empty)))`. */
  function NFold<M, T>(ops: Ops<M, T>, n: nat, xs: M): M
  {
    if n == 0 then ops.empty else ops.concat(xs, NFold(ops, n - 1, xs))
  }

  /** The same repetition folded from the left,
      `concat(concat(... concat(empty, xs) ...), xs)`. `cycle` is meant as
      "`xs` concatenated with itself n times", which does not say how the
      copies are bracketed; `cycle_helper` peels copies off on the left.
      `NFoldLeftIsNFold` shows that, for a monoid, the other bracketing gives
      the same result, so `CycleIsNFold` answers to either reading. */
  function NFoldLeft<M, T>(ops: Ops<M, T>, n: nat, xs: M): M
  {
    if n == 0 then ops.empty else ops.concat(NFoldLeft(ops, n - 1, xs), xs)
  }

  /** k copies of a doubled `xs` are 2k copies of `xs`. */
  lemma {:induction false} NFoldOfDouble<M(!new), T>(ops: Ops<M, T>, k: nat, xs: M)
    requires Associative(ops)
    ensures NFold(ops, k, ops.concat(xs, xs)) == NFold(ops, 2 * k, xs)
  {
    if k > 0 {
      NFoldOfDouble(ops, k - 1, xs);
      calc {
        NFold(ops, k, ops.concat(xs, xs));
        ops.concat(ops.concat(xs, xs), NFold(ops, k - 1, ops.concat(xs, xs)));
        ops.concat(ops.concat(xs, xs), NFold(ops, 2 * k - 2, xs));
        ops.concat(xs, ops.concat(xs, NFold(ops, 2 * k - 2, xs)));
        ops.concat(xs, NFold(ops, 2 * k - 1, xs));
        NFold(ops, 2 * k, xs);
      }
    }
  }

  /** `cycle_helper`'s halving and peeling compute exactly the n-fold
      concatenation, for every data type whose `concat` is associative. */
  lemma {:induction false} CycleIsNFold<M(!new), T>(ops: Ops<M, T>, n: nat, xs: M)
    requires Associative(ops)
    ensures Cycle(ops, n, xs) == NFold(ops, n, xs)
    decreases n
  {
    if n == 0 {
    } else if n % 2 == 0 {
      CycleIsNFold(ops, n / 2, ops.concat(xs, xs));
      NFoldOfDouble(ops, n / 2, xs);
    } else {
      CycleIsNFold(ops, n - 1, xs);
    }
  }

  /** Adding one copy on the right is the same as adding it on the left:
      the step from the right-bracketed to the left-bracketed repetition. */
  lemma {:induction false} NFoldSnoc<M(!new), T>(ops: Ops<M, T>, n: nat, xs: M)
    requires Monoid(ops)
    ensures NFold(ops, n + 1, xs) == ops.concat(NFold(ops, n, xs), xs)
  {
    if n > 0 {
      NFoldSnoc(ops, n - 1, xs);
      calc {
        NFold(ops, n + 1, xs);
        ops.concat(xs, NFold(ops, n, xs));
        ops.concat(xs, ops.concat(NFold(ops, n - 1, xs), xs));
        ops.concat(ops.concat(xs, NFold(ops, n - 1, xs)), xs);
        ops.concat(NFold(ops, n, xs), xs);
      }
    }
  }

  /** For a monoid, folding the copies from the left or from the right gives
      the same result. */
  lemma {:induction false} NFoldLeftIsNFold<M(!new), T>(ops: Ops<M, T>, n: nat, xs: M)
    requires Monoid(ops)
    ensures NFoldLeft(ops, n, xs) == NFold(ops, n, xs)
  {
    if n > 0 {
      NFoldLeftIsNFold(ops, n - 1, xs);
      NFoldSnoc(ops, n - 1, xs);
    }
  }

  /** m + n copies are m copies followed by n copies. */
  lemma {:induction false} NFoldAdd<M(!new), T>(ops: Ops<M, T>, m: nat, n: nat, xs: M)
    requires Monoid(ops)
    ensures NFold(ops, m + n, xs) == ops.concat(NFold(ops, m, xs), NFold(ops, n, xs))
  {
    if m > 0 {
      NFoldAdd(ops, m - 1, n, xs);
      assert NFold(ops, m + n, xs) == ops.concat(xs, NFold(ops, m - 1 + n, xs));
    }
  }

  /** What `cycle` promises for a monoid: one cycle is `xs` itself, and
      cycling m + n times concatenates an m-fold and an n-fold cycle. */
  lemma CycleSplits<M(!new), T>(ops: Ops<M, T>, m: nat, n: nat, xs: M)
    requires Monoid(ops)
    ensures Cycle(ops, 0, xs) == ops.empty
    ensures Cycle(ops, 1, xs) == xs
    ensures Cycle(ops, m + n, xs) == ops.concat(Cycle(ops, m, xs), Cycle(ops, n, xs))
  {
    CycleIsNFold(ops, 1, xs);
    CycleIsNFold(ops, m, xs);
    CycleIsNFold(ops, n, xs);
    CycleIsNFold(ops, m + n, xs);
    NFoldAdd(ops, m, n, xs);
  }

  /** `repeat(n, x)` is n copies of `lift(x)`. */
  lemma RepeatIsNFoldOfLift<M(!new), T>(ops: Ops<M, T>, n: nat, x: T)
    requires Associative(ops)
    ensures Repeat(ops, n, x) == NFold(ops, n, ops.lift(x))
  {
    CycleIsNFold(ops, n, ops.lift(x));
  }

  // ---------------------------------------------------------------------
  // models<MonadPlus, M>
  // ---------------------------------------------------------------------

  /** Whether a data type supplies its own implementation of a primitive or
      falls back to the library's `default_` placeholder. */
  datatype Impl<F> = Default | Provided(apply: F)

  /** The MonadPlus primitives a data type may provide. */
  datatype Instance<!M> = Instance(concat: Impl<(M, M) -> M>, empty: Impl<M>)

  /** `models<MonadPlus, M>` holds when neither `concat` nor `empty` is the default. */
  predicate ModelsMonadPlus<M>(inst: Instance<M>)
  {
    !inst.concat.Default? && !inst.empty.Default?
  }

  /** The record of primitives a modelling instance yields together with its
      `lift` and `bind`; an instance missing either primitive yields none. */
  function OpsOf<M, T>(inst: Instance<M>, lift: T -> M, bind: (M, T -> M) -> M): (r: Impl<Ops<M, T>>)
    ensures r.Provided? <==> ModelsMonadPlus(inst)
    ensures r.Provided? ==> r.apply.empty == inst.empty.apply
    ensures r.Provided? ==> r.apply.concat == inst.concat.apply
  {
    if ModelsMonadPlus(inst)
    then Provided(Ops(inst.concat.apply, inst.empty.apply, lift, bind))
    else Default
  }
}
