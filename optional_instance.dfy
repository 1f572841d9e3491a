/** The MonadPlus defaults instantiated at `Optional`: `concat` is the
    left-biased choice, `empty` is nothing, `lift` is `just` and `bind` is the
    Monad default `flatten(transform(m, f))`. */
module OptionalInstance {
  import opened Optional
  import opened MonadPlus

  /** The primitives of `Optional`. */
  function OptOps<T>(): Ops<Opt<T>, T>
  {
    Ops((x: Opt<T>, y: Opt<T>) => Concat(x, y), Empty(), (x: T) => Lift(x),
        (m: Opt<T>, f: T -> Opt<T>) => Bind(m, f))
  }

  /** `Optional` provides both `concat` and `empty`, so it models MonadPlus. */
  lemma OptionalModelsMonadPlus<T>()
    ensures ModelsMonadPlus(Instance(Provided(OptOps<T>().concat), Provided(OptOps<T>().empty)))
    ensures OpsOf(Instance(Provided(OptOps<T>().concat), Provided(OptOps<T>().empty)),
                  OptOps<T>().lift, OptOps<T>().bind).Provided?
  {
  }

  /** Left-biased `concat` and nothing form a monoid. */
  lemma OptIsMonoid<T(!new)>()
    ensures Monoid(OptOps<T>())
  {
    var ops := OptOps<T>();
    forall a: Opt<T>, b: Opt<T>, c: Opt<T>
      ensures ops.concat(ops.concat(a, b), c) == ops.concat(a, ops.concat(b, c))
    {
      ConcatIsMonoid(a, b, c);
    }
    forall a: Opt<T> ensures ops.concat(ops.empty, a) == a && ops.concat(a, ops.empty) == a {
      ConcatIsMonoid(a, a, a);
    }
  }

  /** `prepend(x, m)` is always `just(x)`: the prepended value wins. */
  lemma PrependOpt<T>(x: T, m: Opt<T>)
    ensures Prepend(OptOps(), x, m) == Just(x)
  {
  }

  /** `append(m, x)` keeps a just value and replaces nothing by `just(x)`. */
  lemma AppendOpt<T>(m: Opt<T>, x: T)
    ensures m.Just? ==> Append(OptOps(), m, x) == m
    ensures m == Nothing ==> Append(OptOps(), m, x) == Just(x)
  {
  }

  /** `filter` on an optional is `find_if`. */
  lemma FilterOpt<T>(m: Opt<T>, p: T -> bool)
    ensures Filter(OptOps(), m, p) == FindIf(m, p)
  {
  }

  /** n copies of an optional under left-biased `concat`. */
  lemma {:induction false} NFoldOpt<T>(n: nat, m: Opt<T>)
    ensures NFold(OptOps(), n, m) == if n == 0 then Nothing else m
  {
    if n > 0 {
      NFoldOpt(n - 1, m);
    }
  }

  /** `cycle(n, m)` is nothing for n = 0 and `m` itself otherwise. */
  lemma CycleOpt<T(!new)>(n: nat, m: Opt<T>)
    ensures Cycle(OptOps(), n, m) == if n == 0 then Nothing else m
  {
    OptIsMonoid<T>();
    CycleIsNFold(OptOps(), n, m);
    NFoldOpt(n, m);
  }

  /** `repeat(n, x)` is `just(x)` when n >= 1 and nothing when n = 0. */
  lemma RepeatOpt<T(!new)>(n: nat, x: T)
    ensures IsJust(Repeat(OptOps(), n, x)) <==> n >= 1
    ensures n >= 1 ==> FromJust(Repeat(OptOps(), n, x)) == x
  {
    CycleOpt(n, Lift(x));
  }

  /** `prefix(z, m)` replaces the value of a just by `z`. */
  lemma PrefixOpt<T>(z: T, m: Opt<T>)
    ensures Prefix(OptOps(), z, m) == Transform(m, (_: T) => z)
  {
  }

  /** `suffix(z, m)` leaves `m` unchanged. */
  lemma SuffixOpt<T>(z: T, m: Opt<T>)
    ensures Suffix(OptOps(), z, m) == m
  {
  }
}
