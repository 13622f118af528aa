/** Sorting by a comparator, as an insertion sort. */
module Sorting {
  /** A strict weak order: the comparators that std::sort accepts. */
  ghost predicate StrictWeak<T(!new)>(less: (T, T) -> bool) {
    && (forall a :: !less(a, a))
    && (forall a, b, c :: less(a, b) && less(b, c) ==> less(a, c))
    && (forall a, b, c :: !less(a, b) && !less(b, c) ==> !less(a, c))
  }

  ghost predicate NoRepeat<T>(xs: seq<T>) {
    forall i, j | 0 <= i < j < |xs| :: xs[i] != xs[j]
  }

  ghost predicate Ascending<T>(xs: seq<T>, less: (T, T) -> bool) {
    forall i, j | 0 <= i < j < |xs| :: !less(xs[j], xs[i])
  }

  method Sort<T(!new)>(xs: seq<T>, less: (T, T) -> bool) returns (ys: seq<T>)
    requires StrictWeak(less)
    ensures multiset(ys) == multiset(xs) && Ascending(ys, less)
  {
    hide StrictWeak;
    ys := [];
    for i := 0 to |xs|
      invariant multiset(ys) == multiset(xs[..i]) && Ascending(ys, less)
    {
      var x, j := xs[i], 0;
      while j < |ys| && !less(x, ys[j])
        invariant j <= |ys| && forall k | 0 <= k < j :: !less(x, ys[k])
      {
        j := j + 1;
      }
      InsertAscending(ys, x, j, less);
      assert xs[..i + 1] == xs[..i] + [x];
      assert ys == ys[..j] + ys[j..];
      ys := ys[..j] + [x] + ys[j..];
    }
    assert xs[..|xs|] == xs;
  }

  lemma InsertAscending<T(!new)>(ys: seq<T>, x: T, j: nat, less: (T, T) -> bool)
    requires StrictWeak(less) && Ascending(ys, less) && j <= |ys|
    requires forall k | 0 <= k < j :: !less(x, ys[k])
    requires j < |ys| ==> less(x, ys[j])
    ensures Ascending(ys[..j] + [x] + ys[j..], less)
  {
    forall k | j <= k < |ys|
      ensures !less(ys[k], x)
    {
      assert !less(ys[j], x) && !less(ys[k], ys[j]);
    }
  }

  ghost predicate PairwiseApart<T>(xs: seq<T>, apart: (T, T) -> bool) {
    forall i, j | 0 <= i < j < |xs| :: apart(xs[i], xs[j])
  }

  lemma EmptyOrNot<T>(xs: seq<T>)
    ensures xs == [] || exists x :: x in xs
  {
    if xs != [] { assert xs[0] in xs; }
  }

  lemma SameMembers<T>(a: seq<T>, b: seq<T>)
    requires multiset(a) == multiset(b)
    ensures forall x :: x in a <==> x in b
  {
    forall x
      ensures x in a <==> x in b
    {
      assert x in a <==> x in multiset(a);
      assert x in b <==> x in multiset(b);
    }
  }

  /** What tells the elements of a list apart tells them apart in any order. */
  lemma PermutationKeepsApart<T(!new)>(xs: seq<T>, ys: seq<T>, apart: (T, T) -> bool)
    requires multiset(xs) == multiset(ys) && PairwiseApart(xs, apart)
    requires forall a, b :: apart(a, b) <==> apart(b, a)
    ensures PairwiseApart(ys, apart)
  {
    SameMembers(xs, ys);
    forall i, j | 0 <= i < j < |ys|
      ensures apart(ys[i], ys[j])
    {
      if ys[i] == ys[j] {
        CountTwo(ys, i, j);
        var p, q := TwoPlaces(xs, ys[i]);
      } else {
        assert ys[i] in xs && ys[j] in xs;
      }
    }
  }

  lemma CountTwo<T>(xs: seq<T>, i: int, j: int)
    requires 0 <= i < j < |xs| && xs[i] == xs[j]
    ensures multiset(xs)[xs[i]] >= 2
  {
    assert xs == xs[..i] + [xs[i]] + xs[i + 1..j] + [xs[j]] + xs[j + 1..];
  }

  lemma {:induction false} TwoPlaces<T>(xs: seq<T>, x: T) returns (p: int, q: int)
    requires multiset(xs)[x] >= 2
    ensures 0 <= p < q < |xs| && xs[p] == xs[q] == x
  {
    assert xs == [xs[0]] + xs[1..];
    if xs[0] == x {
      assert x in multiset(xs[1..]) && x in xs[1..];
      var k :| 0 <= k < |xs[1..]| && xs[1..][k] == x;
      p, q := 0, k + 1;
    } else {
      p, q := TwoPlaces(xs[1..], x);
      p, q := p + 1, q + 1;
    }
  }

  // ----- strict total orders

  ghost predicate StrictOrder<T(!new)>(less: (T, T) -> bool) {
    && (forall a :: !less(a, a))
    && (forall a, b, c :: less(a, b) && less(b, c) ==> less(a, c))
    && (forall a, b :: a == b || less(a, b) || less(b, a))
  }

  ghost predicate Strictly<T>(xs: seq<T>, less: (T, T) -> bool) {
    forall i, j | 0 <= i < j < |xs| :: less(xs[i], xs[j])
  }

  lemma StrictIsWeak<T(!new)>(less: (T, T) -> bool)
    requires StrictOrder(less)
    ensures StrictWeak(less)
  {
    forall a, b, c | !less(a, b) && !less(b, c)
      ensures !less(a, c)
    {
      assert b == c || less(c, b);
      assert a == b || less(b, a);
    }
  }

  /** A set has one strictly rising list. */
  lemma {:induction false} StrictlyOnce<T(!new)>(a: seq<T>, b: seq<T>, less: (T, T) -> bool)
    requires StrictOrder(less) && Strictly(a, less) && Strictly(b, less)
    requires forall x :: x in a <==> x in b
    ensures a == b
  {
    EmptyOrNot(a);
    EmptyOrNot(b);
    if a != [] {
      var x, y := a[|a| - 1], b[|b| - 1];
      assert x in b && y in a;
      assert x == y;
      var a', b' := a[..|a| - 1], b[..|b| - 1];
      InitWithout(a, less);
      InitWithout(b, less);
      assert Strictly(a', less) && Strictly(b', less);
      forall z
        ensures z in a' <==> z in b'
      {
        assert z in a' <==> z in a && z != x;
        assert z in b' <==> z in b && z != y;
      }
      StrictlyOnce(a', b', less);
      assert a == a' + [x] && b == b' + [y];
    }
  }

  lemma InitWithout<T(!new)>(a: seq<T>, less: (T, T) -> bool)
    requires StrictOrder(less) && Strictly(a, less) && a != []
    ensures forall z :: z in a[..|a| - 1] <==> z in a && z != a[|a| - 1]
  {
    assert a == a[..|a| - 1] + [a[|a| - 1]];
    assert forall i | 0 <= i < |a| - 1 :: less(a[i], a[|a| - 1]);
  }
}
