/** Sorting a slice by a total preorder, as the standard library's sort does. */
module Sorting {

  ghost predicate Preorder<T(!new)>(leq: (T, T) -> bool) {
    && (forall a, b :: leq(a, b) || leq(b, a))
    && (forall a, b, c :: leq(a, b) && leq(b, c) ==> leq(a, c))
  }

  ghost predicate Sorted<T>(leq: (T, T) -> bool, xs: seq<T>) {
    forall i, j :: 0 <= i < j < |xs| ==> leq(xs[i], xs[j])
  }

  /** The place of x in a sorted sequence: behind everything not after it. */
  function InsertInto<T>(leq: (T, T) -> bool, x: T, xs: seq<T>): seq<T> {
    if xs == [] || leq(x, xs[0]) then [x] + xs else [xs[0]] + InsertInto(leq, x, xs[1..])
  }

  lemma {:induction false} InsertKeeps<T(!new)>(leq: (T, T) -> bool, x: T, xs: seq<T>)
    requires Preorder(leq) && Sorted(leq, xs)
    ensures multiset(InsertInto(leq, x, xs)) == multiset(xs) + multiset{x}
    ensures Sorted(leq, InsertInto(leq, x, xs))
  {
    var ys := InsertInto(leq, x, xs);
    if xs == [] || leq(x, xs[0]) {
    } else {
      InsertKeeps(leq, x, xs[1..]);
      assert xs == [xs[0]] + xs[1..];
      var rest := InsertInto(leq, x, xs[1..]);
      forall j | 0 <= j < |rest|
        ensures leq(xs[0], rest[j])
      {
        assert rest[j] in multiset(rest);
        assert rest[j] in multiset(xs[1..]) || rest[j] == x;
        if rest[j] != x {
          assert rest[j] in xs[1..];
        }
      }
    }
  }

  method Sort<T(!new)>(leq: (T, T) -> bool, xs: seq<T>) returns (ys: seq<T>)
    requires Preorder(leq)
    ensures Sorted(leq, ys) && multiset(ys) == multiset(xs) && |ys| == |xs|
  {
    ys := [];
    for i := 0 to |xs|
      invariant Sorted(leq, ys) && multiset(ys) == multiset(xs[..i])
    {
      InsertKeeps(leq, xs[i], ys);
      ys := InsertInto(leq, xs[i], ys);
      assert xs[..i + 1] == xs[..i] + [xs[i]];
    }
    assert xs[..|xs|] == xs;
    assert |multiset(ys)| == |multiset(xs)|;
  }

  function Elements<T>(xs: seq<T>): set<T> {
    set x | x in xs
  }

  predicate Distinct<T(==)>(xs: seq<T>) {
    forall i, j :: 0 <= i < j < |xs| ==> xs[i] != xs[j]
  }

  lemma {:induction false} DistinctCountsOnce<T>(xs: seq<T>, x: T)
    requires Distinct(xs)
    ensures multiset(xs)[x] <= 1
  {
    if xs != [] {
      var n := |xs| - 1;
      assert xs == xs[..n] + [xs[n]];
      DistinctCountsOnce(xs[..n], x);
      assert xs[n] !in xs[..n];
    }
  }

  lemma RepeatedCountsTwice<T>(xs: seq<T>, i: nat, j: nat)
    requires i < j < |xs| && xs[i] == xs[j]
    ensures multiset(xs)[xs[i]] >= 2
  {
    assert xs == xs[..j] + xs[j..];
    assert xs[i] in xs[..j] && xs[j..][0] == xs[i];
    assert multiset(xs) == multiset(xs[..j]) + multiset(xs[j..]);
    assert xs[i] in multiset(xs[..j]) && xs[i] in multiset(xs[j..]);
  }

  /** A permutation of a sequence without repetitions has none. */
  lemma PermutedDistinct<T>(xs: seq<T>, ys: seq<T>)
    requires Distinct(xs) && multiset(xs) == multiset(ys)
    ensures Distinct(ys) && Elements(xs) == Elements(ys)
  {
    forall i, j | 0 <= i < j < |ys|
      ensures ys[i] != ys[j]
    {
      DistinctCountsOnce(xs, ys[i]);
      if ys[i] == ys[j] {
        RepeatedCountsTwice(ys, i, j);
      }
    }
    forall x
      ensures x in xs <==> x in ys
    {
      assert x in xs <==> x in multiset(xs);
      assert x in ys <==> x in multiset(ys);
    }
  }

  /** The elements of a set in some order, as iteration over a map meets them. */
  method Enumerate<T>(s: set<T>) returns (xs: seq<T>)
    ensures Distinct(xs) && Elements(xs) == s && |xs| == |s|
  {
    xs := [];
    var rest := s;
    while rest != {}
      invariant Distinct(xs) && Elements(xs) + rest == s && Elements(xs) !! rest
      invariant |xs| + |rest| == |s|
      decreases |rest|
    {
      var x :| x in rest;
      xs := xs + [x];
      rest := rest - {x};
    }
  }

  lemma {:induction false} DistinctSize<T>(xs: seq<T>)
    requires Distinct(xs)
    ensures |Elements(xs)| == |xs|
  {
    if xs == [] {
      assert Elements(xs) == {};
    } else {
      var n := |xs| - 1;
      DistinctSize(xs[..n]);
      assert Elements(xs) == Elements(xs[..n]) + {xs[n]};
    }
  }

  lemma SameSize<T>(a: set<T>, b: set<T>)
    requires a <= b && |a| == |b|
    ensures a == b
  {
    if x :| x in b && x !in a {
      SubsetSize(a, b - {x});
    }
  }

  lemma SubsetSize<T>(a: set<T>, b: set<T>)
    requires a <= b
    ensures |a| <= |b|
  {
    if a != {} {
      var x :| x in a;
      SubsetSize(a - {x}, b - {x});
    }
  }

  lemma NotSubset<T>(a: set<T>, b: set<T>) returns (x: T)
    requires |a| > |b|
    ensures x in a && x !in b
  {
    assert !(a <= b) by {
      if a <= b {
        SubsetSize(a, b);
      }
    }
    x :| x in a && x !in b;
  }

  /** Any finite set can be put in order. */
  lemma SortedElements<T(!new)>(leq: (T, T) -> bool, s: set<T>) returns (xs: seq<T>)
    requires Preorder(leq)
    ensures Sorted(leq, xs) && Distinct(xs) && Elements(xs) == s
  {
    if s == {} {
      xs := [];
    } else {
      var x :| x in s;
      var rest := SortedElements(leq, s - {x});
      xs := InsertInto(leq, x, rest);
      InsertKeeps(leq, x, rest);
      assert x !in Elements(rest);
      PermutedDistinct(rest + [x], xs);
      assert forall y :: y in rest + [x] <==> y in Elements(rest) || y == x;
      assert Elements(rest + [x]) == s;
    }
  }
}
