/** The stable sort of the language's arrays, for any comparison that is a total preorder. */
module Sorting {
  ghost predicate TotalPreorder<T(!new)>(leq: (T, T) -> bool) {
    && (forall a, b :: leq(a, b) || leq(b, a))
    && (forall a, b, c :: leq(a, b) && leq(b, c) ==> leq(a, c))
  }

  ghost predicate Antisymmetric<T(!new)>(leq: (T, T) -> bool) {
    forall a, b :: leq(a, b) && leq(b, a) ==> a == b
  }

  ghost predicate Sorted<T>(leq: (T, T) -> bool, xs: seq<T>) {
    forall i, j | 0 <= i < j < |xs| :: leq(xs[i], xs[j])
  }

  /** Puts x before the first element it does not exceed. */
  function Insert<T>(leq: (T, T) -> bool, x: T, xs: seq<T>): (r: seq<T>)
    ensures multiset(r) == multiset{x} + multiset(xs)
    ensures |r| == |xs| + 1
  {
    if xs == [] || leq(x, xs[0]) then [x] + xs
    else
      assert xs == [xs[0]] + xs[1..];
      [xs[0]] + Insert(leq, x, xs[1..])
  }

  function Sort<T>(leq: (T, T) -> bool, xs: seq<T>): (r: seq<T>)
    ensures multiset(r) == multiset(xs)
    ensures |r| == |xs|
  {
    if xs == [] then []
    else
      assert xs == [xs[0]] + xs[1..];
      Insert(leq, xs[0], Sort(leq, xs[1..]))
  }

  lemma SameElements<T>(xs: seq<T>, ys: seq<T>)
    requires multiset(xs) == multiset(ys)
    ensures forall x :: x in xs <==> x in ys
  {
    forall x
      ensures x in xs <==> x in ys
    {
      assert x in xs <==> x in multiset(xs);
      assert x in ys <==> x in multiset(ys);
    }
  }

  lemma {:induction false} InsertSorted<T(!new)>(leq: (T, T) -> bool, x: T, xs: seq<T>)
    requires TotalPreorder(leq) && Sorted(leq, xs)
    ensures Sorted(leq, Insert(leq, x, xs))
  {
    if xs == [] || leq(x, xs[0]) {
    } else {
      var rest := Insert(leq, x, xs[1..]);
      InsertSorted(leq, x, xs[1..]);
      SameElements(rest, [x] + xs[1..]);
      forall j | 0 <= j < |rest|
        ensures leq(xs[0], rest[j])
      {
        assert rest[j] in rest;
        assert rest[j] in [x] + xs[1..];
      }
    }
  }

  lemma {:induction false} SortSorts<T(!new)>(leq: (T, T) -> bool, xs: seq<T>)
    requires TotalPreorder(leq)
    ensures Sorted(leq, Sort(leq, xs))
  {
    if xs != [] {
      SortSorts(leq, xs[1..]);
      InsertSorted(leq, xs[0], Sort(leq, xs[1..]));
    }
  }

  lemma TwoInOrderStay<T>(leq: (T, T) -> bool, x: T, y: T)
    requires leq(x, y)
    ensures Sort(leq, [x, y]) == [x, y]
  {
    assert [x, y][1..] == [y] && [y][1..] == [];
    assert Sort(leq, [y]) == [y];
  }

  /** For a total order there is only one sorted arrangement of given elements. */
  lemma {:induction false} SortedArrangementIsUnique<T(!new)>(leq: (T, T) -> bool, xs: seq<T>, ys: seq<T>)
    requires TotalPreorder(leq) && Antisymmetric(leq)
    requires Sorted(leq, xs) && Sorted(leq, ys) && multiset(xs) == multiset(ys)
    ensures xs == ys
  {
    assert |xs| == |multiset(xs)| == |multiset(ys)| == |ys|;
    if xs != [] {
      SameElements(xs, ys);
      assert xs[0] in ys && ys[0] in xs;
      var i :| 0 <= i < |ys| && ys[i] == xs[0];
      var j :| 0 <= j < |xs| && xs[j] == ys[0];
      assert leq(xs[0], ys[0]) && leq(ys[0], xs[0]);
      assert xs == [xs[0]] + xs[1..] && ys == [ys[0]] + ys[1..];
      assert multiset(xs[1..]) == multiset(xs) - multiset{xs[0]};
      SortedArrangementIsUnique(leq, xs[1..], ys[1..]);
    }
  }

  /** Sorting forgets the order of the input and nothing else. */
  lemma SortEqualsIffSameMultiset<T(!new)>(leq: (T, T) -> bool, xs: seq<T>, ys: seq<T>)
    requires TotalPreorder(leq) && Antisymmetric(leq)
    ensures Sort(leq, xs) == Sort(leq, ys) <==> multiset(xs) == multiset(ys)
  {
    if multiset(xs) == multiset(ys) {
      SortSorts(leq, xs);
      SortSorts(leq, ys);
      SortedArrangementIsUnique(leq, Sort(leq, xs), Sort(leq, ys));
    } else {
      assert multiset(Sort(leq, xs)) != multiset(Sort(leq, ys));
    }
  }

  // ----- mapped sequences -----

  function Mapped<A, B>(f: A -> B, xs: seq<A>): (r: seq<B>)
    ensures |r| == |xs| && forall i | 0 <= i < |xs| :: r[i] == f(xs[i])
  {
    seq(|xs|, i requires 0 <= i < |xs| => f(xs[i]))
  }

  function Without<T>(xs: seq<T>, i: nat): seq<T>
    requires i < |xs|
  {
    xs[..i] + xs[i + 1..]
  }

  /** Rearranged sequences lose the same element and are rearranged still. */
  lemma SameFirstElement<T>(xs: seq<T>, ys: seq<T>) returns (i: nat)
    requires xs != [] && multiset(xs) == multiset(ys)
    ensures i < |ys| && ys[i] == xs[0] && multiset(xs[1..]) == multiset(Without(ys, i))
  {
    SameElements(xs, ys);
    assert xs[0] in xs;
    i :| 0 <= i < |ys| && ys[i] == xs[0];
    assert xs == [xs[0]] + xs[1..];
    assert ys == ys[..i] + [ys[i]] + ys[i + 1..];
    assert multiset(xs[1..]) == multiset(xs) - multiset{xs[0]};
    assert multiset(Without(ys, i)) == multiset(ys) - multiset{xs[0]};
  }

  lemma AddBack<T>(xs: seq<T>, ys: seq<T>, i: nat)
    requires xs != [] && i < |ys| && ys[i] == xs[0] && multiset(xs[1..]) == multiset(Without(ys, i))
    ensures multiset(xs) == multiset(ys)
  {
    assert xs == [xs[0]] + xs[1..];
    assert ys == ys[..i] + [ys[i]] + ys[i + 1..];
  }

  lemma MappedWithout<A, B>(f: A -> B, xs: seq<A>, i: nat)
    requires i < |xs|
    ensures Mapped(f, Without(xs, i)) == Without(Mapped(f, xs), i)
  {
  }

  lemma MappedRest<A, B>(f: A -> B, xs: seq<A>)
    requires xs != []
    ensures Mapped(f, xs)[1..] == Mapped(f, xs[1..])
  {
  }

  /** Mapping carries a rearrangement to a rearrangement. */
  lemma {:induction false} MappedRearrangement<A, B>(f: A -> B, xs: seq<A>, ys: seq<A>)
    requires multiset(xs) == multiset(ys)
    ensures multiset(Mapped(f, xs)) == multiset(Mapped(f, ys))
  {
    if xs == [] {
      assert |ys| == |multiset(ys)| == 0;
    } else {
      var i := SameFirstElement(xs, ys);
      MappedRearrangement(f, xs[1..], Without(ys, i));
      MappedRest(f, xs);
      MappedWithout(f, ys, i);
      AddBack(Mapped(f, xs), Mapped(f, ys), i);
    }
  }

  /** An injective mapping reflects rearrangements as well. */
  lemma {:induction false} MappedRearrangementReflected<A, B>(f: A -> B, xs: seq<A>, ys: seq<A>)
    requires forall a, b | a in xs && b in ys && f(a) == f(b) :: a == b
    requires multiset(Mapped(f, xs)) == multiset(Mapped(f, ys))
    ensures multiset(xs) == multiset(ys)
  {
    if xs == [] {
      assert |ys| == |Mapped(f, ys)| == |multiset(Mapped(f, ys))| == 0;
    } else {
      var i := SameFirstElement(Mapped(f, xs), Mapped(f, ys));
      assert ys[i] in ys && xs[0] in xs;
      MappedRest(f, xs);
      MappedWithout(f, ys, i);
      MappedRearrangementReflected(f, xs[1..], Without(ys, i));
      AddBack(xs, ys, i);
    }
  }

  ghost predicate Distinct<T>(xs: seq<T>) {
    forall i, j | 0 <= i < j < |xs| :: xs[i] != xs[j]
  }

  lemma {:induction false} DistinctCountsOnce<T>(xs: seq<T>)
    ensures Distinct(xs) <==> forall x | x in xs :: multiset(xs)[x] == 1
  {
    if xs != [] {
      var rest := xs[1..];
      DistinctCountsOnce(rest);
      assert xs == [xs[0]] + rest;
      assert multiset(xs) == multiset{xs[0]} + multiset(rest);
      if Distinct(xs) {
        assert xs[0] !in rest;
        assert Distinct(rest);
      } else if forall x | x in xs :: multiset(xs)[x] == 1 {
        assert xs[0] in xs && xs[0] !in multiset(rest);
        forall x | x in rest
          ensures multiset(rest)[x] == 1
        {
          assert x in xs;
        }
        assert false;
      }
    }
  }

  lemma DistinctRearranged<T>(xs: seq<T>, ys: seq<T>)
    requires multiset(xs) == multiset(ys) && Distinct(xs)
    ensures Distinct(ys)
  {
    DistinctCountsOnce(xs);
    DistinctCountsOnce(ys);
    SameElements(xs, ys);
  }

  /** Distinct sequences over the same elements are rearrangements of each other. */
  lemma SameDistinctElements<T>(xs: seq<T>, ys: seq<T>)
    requires Distinct(xs) && Distinct(ys) && forall x :: x in xs <==> x in ys
    ensures multiset(xs) == multiset(ys)
  {
    DistinctCountsOnce(xs);
    DistinctCountsOnce(ys);
    forall x
      ensures multiset(xs)[x] == multiset(ys)[x]
    {
      assert x in multiset(xs) <==> x in xs;
      assert x in multiset(ys) <==> x in ys;
    }
  }
}
