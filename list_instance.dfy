/** The MonadPlus defaults instantiated at finite sequences, the list monad:
    `concat` is `+`, `empty` is `[]`, `lift(x)` is `[x]` and `bind(xs, f)`
    concatenates `f(x)` over the elements `x` of `xs` in order. */
module ListInstance {
  import opened MonadPlus

  /** `bind` of the list monad. */
  function Join<T>(xs: seq<T>, f: T -> seq<T>): seq<T>
  {
    if xs == [] then [] else f(xs[0]) + Join(xs[1..], f)
  }

  /** The primitives of the list monad. */
  function ListOps<T>(): Ops<seq<T>, T>
  {
    Ops((a: seq<T>, b: seq<T>) => a + b, [], (x: T) => [x], (xs: seq<T>, f: T -> seq<T>) => Join(xs, f))
  }

  /** Sequences provide both `concat` and `empty`, so they model MonadPlus. */
  lemma ListModelsMonadPlus<T>()
    ensures ModelsMonadPlus(Instance(Provided(ListOps<T>().concat), Provided(ListOps<T>().empty)))
    ensures OpsOf(Instance(Provided(ListOps<T>().concat), Provided(ListOps<T>().empty)),
                  ListOps<T>().lift, ListOps<T>().bind).Provided?
  {
  }

  /** `+` and `[]` form a monoid. */
  lemma ListIsMonoid<T(!new)>()
    ensures Monoid(ListOps<T>())
  {
    var ops := ListOps<T>();
    forall a: seq<T>, b: seq<T>, c: seq<T>
      ensures ops.concat(ops.concat(a, b), c) == ops.concat(a, ops.concat(b, c))
    {
      assert ops.concat(a, b) == a + b && ops.concat(b, c) == b + c;
    }
    forall a: seq<T> ensures ops.concat(ops.empty, a) == a && ops.concat(a, ops.empty) == a {
      assert [] + a == a && a + [] == a;
    }
  }

  /** `bind` distributes over `concat`. */
  lemma {:induction false} JoinAppend<T>(a: seq<T>, b: seq<T>, f: T -> seq<T>)
    ensures Join(a + b, f) == Join(a, f) + Join(b, f)
  {
    if a == [] {
      assert a + b == b;
    } else {
      assert (a + b)[1..] == a[1..] + b;
      JoinAppend(a[1..], b, f);
    }
  }

  /** Binding every element to a pair lays the pairs out side by side. */
  lemma {:induction false} JoinPairs<T>(xs: seq<T>, f: T -> seq<T>)
    requires forall x :: |f(x)| == 2
    ensures |Join(xs, f)| == 2 * |xs|
    ensures forall i :: 0 <= i < |xs| ==>
      Join(xs, f)[2 * i] == f(xs[i])[0] && Join(xs, f)[2 * i + 1] == f(xs[i])[1]
  {
    if xs != [] {
      JoinPairs(xs[1..], f);
      forall i | 0 < i < |xs|
        ensures Join(xs, f)[2 * i] == f(xs[i])[0] && Join(xs, f)[2 * i + 1] == f(xs[i])[1]
      {
        assert xs[1..][i - 1] == xs[i];
      }
    }
  }

  // ---------------------------------------------------------------------
  // prepend and append
  // ---------------------------------------------------------------------

  /** `prepend(x, xs)` puts `x` in front of `xs`: one element longer, `x` first,
      `xs` after it. */
  lemma PrependList<T>(x: T, xs: seq<T>)
    ensures |Prepend(ListOps(), x, xs)| == |xs| + 1
    ensures Prepend(ListOps(), x, xs)[0] == x
    ensures Prepend(ListOps(), x, xs)[1..] == xs
  {
    assert Prepend(ListOps(), x, xs) == [x] + xs;
  }

  /** `append(xs, x)` puts `x` after `xs`: one element longer, `x` last,
      `xs` before it. */
  lemma AppendList<T>(xs: seq<T>, x: T)
    ensures |Append(ListOps(), xs, x)| == |xs| + 1
    ensures Append(ListOps(), xs, x)[|xs|] == x
    ensures Append(ListOps(), xs, x)[..|xs|] == xs
  {
    assert Append(ListOps(), xs, x) == xs + [x];
  }

  // ---------------------------------------------------------------------
  // filter
  // ---------------------------------------------------------------------

  /** One step of `filter`: the first element is kept exactly when it satisfies `p`. */
  lemma FilterCons<T>(xs: seq<T>, p: T -> bool)
    requires xs != []
    ensures Filter(ListOps(), xs, p)
         == (if p(xs[0]) then [xs[0]] else []) + Filter(ListOps(), xs[1..], p)
  {
  }

  /** `filter` keeps exactly the occurrences of the elements that satisfy `p`
      (counted with multiplicity), so every kept element satisfies `p` and the
      result is never longer than the input. */
  lemma {:induction false} FilterKeepsExactly<T>(xs: seq<T>, p: T -> bool)
    ensures forall x :: multiset(Filter(ListOps(), xs, p))[x] == if p(x) then multiset(xs)[x] else 0
    ensures forall i :: 0 <= i < |Filter(ListOps(), xs, p)| ==> p(Filter(ListOps(), xs, p)[i])
    ensures |Filter(ListOps(), xs, p)| <= |xs|
  {
    if xs != [] {
      FilterCons(xs, p);
      FilterKeepsExactly(xs[1..], p);
      assert xs == [xs[0]] + xs[1..];
      assert multiset(xs) == multiset{xs[0]} + multiset(xs[1..]);
      var r := Filter(ListOps(), xs, p);
      var rest := Filter(ListOps(), xs[1..], p);
      forall i | 0 <= i < |r| ensures p(r[i]) {
        if p(xs[0]) && i > 0 {
          assert r[i] == rest[i - 1];
        }
      }
    }
  }

  /** `filter` keeps the original order: it maps a concatenation to the
      concatenation of the filtered parts (and, by `FilterCons`, a singleton
      to itself or to nothing). */
  lemma FilterAppend<T>(a: seq<T>, b: seq<T>, p: T -> bool)
    ensures Filter(ListOps(), a + b, p) == Filter(ListOps(), a, p) + Filter(ListOps(), b, p)
  {
    JoinAppend(a, b, FilterStep(ListOps(), p));
  }

  /** `filter` drops nothing exactly when every element satisfies `p`. */
  lemma {:induction false} FilterAllKept<T>(xs: seq<T>, p: T -> bool)
    ensures Filter(ListOps(), xs, p) == xs <==> forall i :: 0 <= i < |xs| ==> p(xs[i])
  {
    if xs != [] {
      FilterCons(xs, p);
      FilterAllKept(xs[1..], p);
      FilterKeepsExactly(xs[1..], p);
      if !p(xs[0]) {
        assert |Filter(ListOps(), xs, p)| < |xs|;
      } else if Filter(ListOps(), xs, p) == xs {
        assert Filter(ListOps(), xs[1..], p) == xs[1..];
        forall i | 0 < i < |xs| ensures p(xs[i]) {
          assert xs[1..][i - 1] == xs[i];
        }
      } else {
        assert xs == [xs[0]] + xs[1..];
      }
    }
  }

  /** Filtering twice by the same predicate is filtering once. */
  lemma FilterIdempotent<T>(xs: seq<T>, p: T -> bool)
    ensures Filter(ListOps(), Filter(ListOps(), xs, p), p) == Filter(ListOps(), xs, p)
  {
    var r := Filter(ListOps(), xs, p);
    FilterKeepsExactly(xs, p);
    FilterAllKept(r, p);
  }

  // ---------------------------------------------------------------------
  // cycle and repeat
  // ---------------------------------------------------------------------

  lemma MulSucc(n: nat, k: nat)
    requires n > 0
    ensures n * k == k + (n - 1) * k
  {
  }

  lemma MulAtLeast(a: int, k: int)
    requires a >= 1 && k > 0
    ensures a * k >= k
  {
  }

  /** The remainder of `q * k + r` by k is r, for 0 <= r < k. */
  lemma ModUnique(i: int, k: int, q: int, r: int)
    requires 0 < k && 0 <= r < k && i == q * k + r
    ensures i % k == r
  {
    var q', r' := i / k, i % k;
    assert i == q' * k + r';
    assert (q - q') * k == r' - r by {
      assert q * k - q' * k == (q - q') * k;
    }
    if q > q' {
      MulAtLeast(q - q', k);
    } else if q < q' {
      MulAtLeast(q' - q, k);
    }
  }

  lemma ModShift(i: nat, k: nat)
    requires 0 < k <= i
    ensures (i - k) % k == i % k
  {
    var q, r := (i - k) / k, (i - k) % k;
    assert i - k == q * k + r;
    assert i == (q + 1) * k + r;
    ModUnique(i, k, q + 1, r);
  }

  lemma {:induction false} NFoldListLength<T>(n: nat, xs: seq<T>)
    ensures |NFold(ListOps(), n, xs)| == n * |xs|
  {
    if n > 0 {
      NFoldListLength(n - 1, xs);
      MulSucc(n, |xs|);
    }
  }

  lemma {:induction false} NFoldListAt<T>(n: nat, xs: seq<T>, i: nat)
    requires xs != [] && i < |NFold(ListOps(), n, xs)|
    ensures NFold(ListOps(), n, xs)[i] == xs[i % |xs|]
  {
    var rest := NFold(ListOps(), n - 1, xs);
    assert NFold(ListOps(), n, xs) == xs + rest;
    if i < |xs| {
      ModUnique(i, |xs|, 0, i);
    } else {
      NFoldListAt(n - 1, xs, i - |xs|);
      ModShift(i, |xs|);
    }
  }

  /** n copies of `xs` laid end to end. */
  lemma NFoldList<T>(n: nat, xs: seq<T>)
    ensures |NFold(ListOps(), n, xs)| == n * |xs|
    ensures forall i :: 0 <= i < n * |xs| ==> NFold(ListOps(), n, xs)[i] == xs[i % |xs|]
  {
    NFoldListLength(n, xs);
    forall i | 0 <= i < n * |xs| ensures NFold(ListOps(), n, xs)[i] == xs[i % |xs|] {
      NFoldListAt(n, xs, i);
    }
  }

  /** `cycle(n, xs)` is `xs` repeated n times: its length is `n * |xs|` and
      position i holds `xs[i % |xs|]`. */
  lemma CycleList<T(!new)>(n: nat, xs: seq<T>)
    ensures |Cycle(ListOps(), n, xs)| == n * |xs|
    ensures forall i :: 0 <= i < n * |xs| ==> Cycle(ListOps(), n, xs)[i] == xs[i % |xs|]
  {
    ListIsMonoid<T>();
    CycleIsNFold(ListOps(), n, xs);
    NFoldList(n, xs);
  }

  /** `repeat(n, x)` is n copies of `x`. */
  lemma RepeatList<T(!new)>(n: nat, x: T)
    ensures |Repeat(ListOps(), n, x)| == n
    ensures forall i :: 0 <= i < n ==> Repeat(ListOps(), n, x)[i] == x
  {
    CycleList(n, [x]);
  }

  // ---------------------------------------------------------------------
  // prefix and suffix
  // ---------------------------------------------------------------------

  /** `prefix(z, xs)` is `[z, x1, z, x2, ...]`. */
  lemma PrefixList<T>(z: T, xs: seq<T>)
    ensures |Prefix(ListOps(), z, xs)| == 2 * |xs|
    ensures forall i :: 0 <= i < |xs| ==>
      Prefix(ListOps(), z, xs)[2 * i] == z && Prefix(ListOps(), z, xs)[2 * i + 1] == xs[i]
  {
    JoinPairs(xs, PrefixStep(ListOps(), z));
  }

  /** `suffix(z, xs)` is `[x1, z, x2, z, ...]`. */
  lemma SuffixList<T>(z: T, xs: seq<T>)
    ensures |Suffix(ListOps(), z, xs)| == 2 * |xs|
    ensures forall i :: 0 <= i < |xs| ==>
      Suffix(ListOps(), z, xs)[2 * i] == xs[i] && Suffix(ListOps(), z, xs)[2 * i + 1] == z
  {
    JoinPairs(xs, SuffixStep(ListOps(), z));
  }
}
