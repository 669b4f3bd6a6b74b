/** Sums over sequences. */
module Sums {
  import opened Sorting

  function SumBy<T>(f: T -> int, xs: seq<T>): int {
    if xs == [] then 0 else SumBy(f, xs[..|xs| - 1]) + f(xs[|xs| - 1])
  }

  lemma SumAddLast<T>(f: T -> int, xs: seq<T>, x: T)
    ensures SumBy(f, xs + [x]) == SumBy(f, xs) + f(x)
  {
    assert (xs + [x])[..|xs|] == xs;
  }

  lemma SumOfOne<T>(f: T -> int, x: T)
    ensures SumBy(f, [x]) == f(x)
  {
    SumAddLast(f, [], x);
    assert [] + [x] == [x];
  }

  lemma {:induction false} SumAppend<T>(f: T -> int, xs: seq<T>, ys: seq<T>)
    ensures SumBy(f, xs + ys) == SumBy(f, xs) + SumBy(f, ys)
  {
    if ys == [] {
      assert xs + ys == xs;
    } else {
      var front, last := ys[..|ys| - 1], ys[|ys| - 1];
      SumAppend(f, xs, front);
      SumAddLast(f, xs + front, last);
      assert xs + ys == (xs + front) + [last];
    }
  }

  lemma SumOfFirst<T>(f: T -> int, xs: seq<T>)
    requires xs != []
    ensures SumBy(f, xs) == f(xs[0]) + SumBy(f, xs[1..])
  {
    assert xs == [xs[0]] + xs[1..];
    SumAppend(f, [xs[0]], xs[1..]);
    assert [xs[0]][..0] == [];
  }

  lemma SumWithout<T>(f: T -> int, xs: seq<T>, i: nat)
    requires i < |xs|
    ensures SumBy(f, xs) == f(xs[i]) + SumBy(f, Without(xs, i))
  {
    assert xs == xs[..i] + xs[i..];
    SumAppend(f, xs[..i], xs[i..]);
    SumOfFirst(f, xs[i..]);
    SumAppend(f, xs[..i], xs[i + 1..]);
  }

  /** A sum does not depend on the order of its terms. */
  lemma {:induction false} SumRearranged<T>(f: T -> int, xs: seq<T>, ys: seq<T>)
    requires multiset(xs) == multiset(ys)
    ensures SumBy(f, xs) == SumBy(f, ys)
  {
    if xs == [] {
      assert |ys| == |multiset(ys)| == 0;
    } else {
      var i := SameFirstElement(xs, ys);
      SumRearranged(f, xs[1..], Without(ys, i));
      SumOfFirst(f, xs);
      SumWithout(f, ys, i);
    }
  }

  lemma {:induction false} SumSame<S, T>(f: S -> int, xs: seq<S>, g: T -> int, ys: seq<T>)
    requires |xs| == |ys| && forall i | 0 <= i < |xs| :: f(xs[i]) == g(ys[i])
    ensures SumBy(f, xs) == SumBy(g, ys)
  {
    if xs != [] {
      SumSame(f, xs[..|xs| - 1], g, ys[..|ys| - 1]);
    }
  }

  lemma {:induction false} SumNonNegative<T>(f: T -> int, xs: seq<T>)
    requires forall x | x in xs :: f(x) >= 0
    ensures SumBy(f, xs) >= 0
    ensures forall x | x in xs :: f(x) <= SumBy(f, xs)
  {
    if xs != [] {
      var front := xs[..|xs| - 1];
      SumNonNegative(f, front);
      assert xs == front + [xs[|xs| - 1]];
    }
  }
}
