/** The `Optional` data type: a value that is either `nothing` or `just(x)`,
    with its Comparable, Orderable, Functor, Applicative, Monad, MonadPlus,
    Foldable and Searchable instances.

    In the library the two cases are distinct C++ types and every operation
    picks its branch by overload resolution; here they are the two constructors
    of one datatype and every operation is a case split on them. */
module Optional {

  datatype Opt<T> = Nothing | Just(val: T)

  /** `hana::maybe(d, f, m)`: `d` for nothing and `f(x)` for `just(x)`.
      Several operations below are written through it, as in the library. */
  function Maybe<T, R>(d: R, f: T -> R, m: Opt<T>): R
  {
    match m
    case Nothing => d
    case Just(x) => f(x)
  }

  // ---------------------------------------------------------------------
  // is_just, is_nothing, from_maybe, from_just, only_when
  // ---------------------------------------------------------------------

  /** The compile-time flag `is_just` carried by the type of `m`. */
  predicate IsJust<T>(m: Opt<T>)
  {
    m.Just?
  }

  /** The negation of the same flag. */
  predicate IsNothing<T>(m: Opt<T>)
  {
    !m.Just?
  }

  /** `is_just` holds exactly of the values built with `just`, and
      `is_nothing` is always its negation. */
  lemma IsJustIffJust<T>(m: Opt<T>)
    ensures IsJust(m) <==> exists x :: m == Just(x)
    ensures IsNothing(m) <==> !IsJust(m)
    ensures IsNothing(m) <==> m == Nothing
  {
    if m.Just? {
      assert m == Just(m.val);
    }
  }

  /** `from_maybe(d, m)` is `maybe(d, id, m)`. */
  function FromMaybe<T>(d: T, m: Opt<T>): (r: T)
    ensures m == Nothing ==> r == d
    ensures m.Just? ==> r == m.val
  {
    Maybe(d, x => x, m)
  }

  /** `from_just(m)` is a compile-time error on nothing: a precondition here. */
  function FromJust<T>(m: Opt<T>): (r: T)
    requires IsJust(m)
    ensures Just(r) == m
  {
    m.val
  }

  /** On a just value the default of `from_maybe` is never used. */
  lemma FromMaybeOfJust<T>(d: T, m: Opt<T>)
    requires IsJust(m)
    ensures FromMaybe(d, m) == FromJust(m)
  {
  }

  /** `only_when(pred, f, x)`: `just(f(x))` when `pred(x)` holds, nothing otherwise. */
  function OnlyWhen<T, U>(pred: T -> bool, f: T -> U, x: T): (r: Opt<U>)
    ensures IsJust(r) <==> pred(x)
    ensures IsJust(r) ==> FromJust(r) == f(x)
  {
    if pred(x) then Just(f(x)) else Nothing
  }

  // ---------------------------------------------------------------------
  // Comparable and Orderable
  // ---------------------------------------------------------------------

  /** `equal` on optionals, parameterised by the equality `eq` of the payloads:
      two just values compare their payloads, two nothings are equal, and a
      just value never equals nothing. */
  function Equal<T>(eq: (T, T) -> bool, m: Opt<T>, n: Opt<T>): (r: bool)
    ensures m.Just? && n.Just? ==> (r <==> eq(m.val, n.val))
    ensures m == Nothing && n == Nothing ==> r
    ensures m.Just? != n.Just? ==> !r
  {
    match (m, n)
    case (Just(x), Just(y)) => eq(x, y)
    case (Nothing, Nothing) => true
    case _ => false
  }

  /** `less` on optionals, parameterised by the order `lt` of the payloads:
      nothing sorts before every just value. */
  function Less<T>(lt: (T, T) -> bool, m: Opt<T>, n: Opt<T>): (r: bool)
    ensures m == Nothing ==> (r <==> n.Just?)
    ensures m.Just? && n == Nothing ==> !r
    ensures m.Just? && n.Just? ==> (r <==> lt(m.val, n.val))
  {
    match (m, n)
    case (Nothing, Just(_)) => true
    case (Nothing, Nothing) => false
    case (Just(_), Nothing) => false
    case (Just(x), Just(y)) => lt(x, y)
  }

  ghost predicate Reflexive<T(!new)>(r: (T, T) -> bool)
  {
    forall x :: r(x, x)
  }

  ghost predicate Irreflexive<T(!new)>(r: (T, T) -> bool)
  {
    forall x :: !r(x, x)
  }

  ghost predicate Symmetric<T(!new)>(r: (T, T) -> bool)
  {
    forall x, y :: r(x, y) ==> r(y, x)
  }

  ghost predicate Transitive<T(!new)>(r: (T, T) -> bool)
  {
    forall x, y, z :: r(x, y) && r(y, z) ==> r(x, z)
  }

  ghost predicate Equivalence<T(!new)>(r: (T, T) -> bool)
  {
    Reflexive(r) && Symmetric(r) && Transitive(r)
  }

  ghost predicate StrictOrder<T(!new)>(r: (T, T) -> bool)
  {
    Irreflexive(r) && Transitive(r)
  }

  /** Every two distinct values are ordered one way or the other. */
  ghost predicate Connected<T(!new)>(r: (T, T) -> bool)
  {
    forall x, y :: x != y ==> r(x, y) || r(y, x)
  }

  /** With the payloads compared by `==`, `equal` is structural equality. */
  lemma EqualIsStructural<T>(m: Opt<T>, n: Opt<T>)
    ensures Equal((x: T, y: T) => x == y, m, n) <==> m == n
  {
  }

  /** `equal` is an equivalence whenever the payload equality is one. */
  lemma EqualIsEquivalence<T(!new)>(eq: (T, T) -> bool)
    requires Equivalence(eq)
    ensures Equivalence((m: Opt<T>, n: Opt<T>) => Equal(eq, m, n))
  {
  }

  /** `less` is a strict order whenever the payload order is one. */
  lemma LessIsStrictOrder<T(!new)>(lt: (T, T) -> bool)
    requires StrictOrder(lt)
    ensures StrictOrder((m: Opt<T>, n: Opt<T>) => Less(lt, m, n))
  {
  }

  /** `less` is total (on distinct values) whenever the payload order is. */
  lemma LessIsConnected<T(!new)>(lt: (T, T) -> bool)
    requires Connected(lt)
    ensures Connected((m: Opt<T>, n: Opt<T>) => Less(lt, m, n))
  {
  }

  // ---------------------------------------------------------------------
  // Functor, Applicative, Monad
  // ---------------------------------------------------------------------

  /** `transform(m, f)` is `maybe(nothing, just . f, m)`. */
  function Transform<T, U>(m: Opt<T>, f: T -> U): (r: Opt<U>)
    ensures IsJust(r) <==> IsJust(m)
    ensures IsJust(m) ==> FromJust(r) == f(FromJust(m))
  {
    Maybe(Nothing, x => Just(f(x)), m)
  }

  /** Functor laws: transforming by the identity changes nothing, and
      transforming by a composition is transforming twice. */
  lemma TransformIdentity<T>(m: Opt<T>)
    ensures Transform(m, (x: T) => x) == m
  {
  }

  lemma TransformComposition<T, U, V>(m: Opt<T>, f: T -> U, g: U -> V)
    ensures Transform(m, (x: T) => g(f(x))) == Transform(Transform(m, f), g)
  {
  }

  /** `lift<Optional>(x)` is `just(x)`. */
  function Lift<T>(x: T): (r: Opt<T>)
    ensures IsJust(r) && FromJust(r) == x
  {
    Just(x)
  }

  /** `ap(f, x)` applies the function inside `f` to the value inside `x`
      when both are just values, and is nothing otherwise. */
  function Ap<T, U>(f: Opt<T -> U>, x: Opt<T>): (r: Opt<U>)
    ensures IsJust(r) <==> IsJust(f) && IsJust(x)
    ensures IsJust(r) ==> FromJust(r) == FromJust(f)(FromJust(x))
  {
    if IsJust(f) && IsJust(x) then Just(f.val(x.val)) else Nothing
  }

  /** Applicative laws. */
  lemma ApIdentity<T>(x: Opt<T>)
    ensures Ap(Lift((y: T) => y), x) == x
  {
  }

  lemma ApHomomorphism<T, U>(f: T -> U, x: T)
    ensures Ap(Lift(f), Lift(x)) == Lift(f(x))
  {
  }

  lemma ApInterchange<T, U>(u: Opt<T -> U>, y: T)
    ensures Ap(u, Lift(y)) == Ap(Lift((g: T -> U) => g(y)), u)
  {
  }

  lemma ApComposition<A, B, C>(u: Opt<B -> C>, v: Opt<A -> B>, w: Opt<A>)
    ensures Ap(Ap(Ap(Lift((f: B -> C) => (g: A -> B) => (a: A) => f(g(a))), u), v), w)
         == Ap(u, Ap(v, w))
  {
  }

  /** `transform` agrees with `ap` of a lifted function. */
  lemma TransformIsAp<T, U>(m: Opt<T>, f: T -> U)
    ensures Transform(m, f) == Ap(Lift(f), m)
  {
  }

  /** `flatten(mm)` is `maybe(nothing, id, mm)`. */
  function Flatten<T>(mm: Opt<Opt<T>>): (r: Opt<T>)
    ensures mm == Nothing ==> r == Nothing
    ensures mm.Just? ==> r == mm.val
  {
    Maybe(Nothing, (m: Opt<T>) => m, mm)
  }

  /** `bind` for optionals: the Monad default `flatten(transform(m, f))`. */
  function Bind<T, U>(m: Opt<T>, f: T -> Opt<U>): (r: Opt<U>)
    ensures m == Nothing ==> r == Nothing
    ensures m.Just? ==> r == f(m.val)
  {
    Flatten(Transform(m, f))
  }

  /** Monad laws for `bind` built from `flatten` and `transform`. */
  lemma BindLeftIdentity<T, U>(x: T, f: T -> Opt<U>)
    ensures Bind(Lift(x), f) == f(x)
  {
  }

  lemma BindRightIdentity<T>(m: Opt<T>)
    ensures Bind(m, Lift) == m
  {
  }

  lemma BindAssociative<T, U, V>(m: Opt<T>, f: T -> Opt<U>, g: U -> Opt<V>)
    ensures Bind(Bind(m, f), g) == Bind(m, (x: T) => Bind(f(x), g))
  {
  }

  // ---------------------------------------------------------------------
  // MonadPlus
  // ---------------------------------------------------------------------

  /** Left-biased `concat`: the first just value wins. */
  function Concat<T>(x: Opt<T>, y: Opt<T>): (r: Opt<T>)
    ensures x == Nothing ==> r == y
    ensures x.Just? ==> r == x
  {
    match x
    case Nothing => y
    case Just(_) => x
  }

  /** `empty<Optional>()` is nothing. */
  function Empty<T>(): (r: Opt<T>)
    ensures IsNothing(r)
  {
    Nothing
  }

  /** `concat` and `empty` form a monoid. */
  lemma ConcatIsMonoid<T>(x: Opt<T>, y: Opt<T>, z: Opt<T>)
    ensures Concat(Concat(x, y), z) == Concat(x, Concat(y, z))
    ensures Concat(Empty(), x) == x
    ensures Concat(x, Empty()) == x
  {
  }

  // ---------------------------------------------------------------------
  // Foldable and Searchable
  // ---------------------------------------------------------------------

  /** `unpack(m, f)` calls `f` with the elements of `m` as its arguments:
      with none for nothing and with `x` for `just(x)`. The argument list is
      a sequence here. */
  function Unpack<T, R>(m: Opt<T>, f: seq<T> -> R): (r: R)
    ensures m == Nothing ==> r == f([])
    ensures m.Just? ==> r == f([m.val])
  {
    match m
    case Just(x) => f([x])
    case Nothing => f([])
  }

  /** An optional, seen through `unpack`, holds at most one element, and
      holds one exactly when it is a just value. */
  lemma UnpackHoldsAtMostOne<T>(m: Opt<T>)
    ensures Unpack(m, (s: seq<T>) => |s|) <= 1
    ensures Unpack(m, (s: seq<T>) => |s|) == 1 <==> IsJust(m)
    ensures IsJust(m) ==> Unpack(m, (s: seq<T>) => s) == [FromJust(m)]
  {
  }

  /** `find_if(m, p)`: nothing for nothing, and `only_when(p, id, x)` for `just(x)`. */
  function FindIf<T>(m: Opt<T>, p: T -> bool): (r: Opt<T>)
    ensures m == Nothing ==> r == Nothing
    ensures m.Just? ==> (r == m <==> p(m.val))
    ensures m.Just? && !p(m.val) ==> r == Nothing
  {
    match m
    case Just(x) => OnlyWhen(p, (y: T) => y, x)
    case Nothing => Nothing
  }

  /** `any_of(m, p)` is `maybe(false, p, m)`. */
  function AnyOf<T>(m: Opt<T>, p: T -> bool): (r: bool)
    ensures r <==> IsJust(m) && p(FromJust(m))
  {
    Maybe(false, p, m)
  }

  /** Searchable agreement: `any_of` holds exactly when `find_if` finds something,
      and what `find_if` finds satisfies the predicate. */
  lemma AnyOfIffFindIf<T>(m: Opt<T>, p: T -> bool)
    ensures AnyOf(m, p) <==> IsJust(FindIf(m, p))
    ensures IsJust(FindIf(m, p)) ==> p(FromJust(FindIf(m, p)))
  {
  }
}
