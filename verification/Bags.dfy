/** Row-wise operators over sequences, compared as bags. */
module Bags {
  function FlatMap<A, B>(xs: seq<A>, f: A -> seq<B>): seq<B>
  {
    if xs == [] then [] else f(xs[0]) + FlatMap(xs[1..], f)
  }

  lemma {:induction false} FlatMapAppend<A, B>(xs: seq<A>, ys: seq<A>, f: A -> seq<B>)
    ensures FlatMap(xs + ys, f) == FlatMap(xs, f) + FlatMap(ys, f)
  {
    if xs == [] {
      assert xs + ys == ys;
    } else {
      assert (xs + ys)[0] == xs[0] && (xs + ys)[1..] == xs[1..] + ys;
      FlatMapAppend(xs[1..], ys, f);
    }
  }

  /** The bag a row-wise operator yields depends only on the bag it reads. */
  lemma {:induction false} FlatMapBag<A, B>(xs: seq<A>, ys: seq<A>, f: A -> seq<B>)
    requires multiset(xs) == multiset(ys)
    ensures multiset(FlatMap(xs, f)) == multiset(FlatMap(ys, f))
    decreases |xs|
  {
    if xs == [] {
      assert |multiset(ys)| == 0;
    } else {
      var x, rest := xs[0], xs[1..];
      assert xs == [x] + rest;
      assert multiset(xs) == multiset{x} + multiset(rest);
      assert x in multiset(ys);
      var a, b := Around(ys, x);
      MovedFront(a, x, b, f);
      assert multiset(rest) == multiset(xs) - multiset{x} == multiset(a + b);
      FlatMapBag(rest, a + b, f);
    }
  }

  lemma Around<A>(ys: seq<A>, x: A) returns (a: seq<A>, b: seq<A>)
    requires x in ys
    ensures ys == a + ([x] + b)
  {
    var j :| 0 <= j < |ys| && ys[j] == x;
    a, b := ys[..j], ys[j + 1..];
  }

  lemma MovedFront<A, B>(a: seq<A>, x: A, b: seq<A>, f: A -> seq<B>)
    ensures multiset(a + ([x] + b)) == multiset{x} + multiset(a + b)
    ensures multiset(FlatMap(a + ([x] + b), f)) == multiset(f(x)) + multiset(FlatMap(a + b, f))
  {
    FlatMapAppend(a, b, f);
    FlatMapAppend(a, [x] + b, f);
    assert ([x] + b)[1..] == b;
  }

  /** Operators that agree as bags row by row agree on the whole. */
  lemma {:induction false} FlatMapSame<A, B>(xs: seq<A>, f: A -> seq<B>, g: A -> seq<B>)
    requires forall x :: x in xs ==> multiset(f(x)) == multiset(g(x))
    ensures multiset(FlatMap(xs, f)) == multiset(FlatMap(xs, g))
  {
    if xs != [] { FlatMapSame(xs[1..], f, g); }
  }

  lemma {:induction false} FlatMapEqual<A, B>(xs: seq<A>, f: A -> seq<B>, g: A -> seq<B>)
    requires forall x :: x in xs ==> f(x) == g(x)
    ensures FlatMap(xs, f) == FlatMap(xs, g)
  {
    if xs != [] { FlatMapEqual(xs[1..], f, g); }
  }

  lemma {:induction false} FlatMapSplit<A, B>(xs: seq<A>, h: A -> seq<B>, f: A -> seq<B>, g: A -> seq<B>)
    requires forall x :: x in xs ==> h(x) == f(x) + g(x)
    ensures multiset(FlatMap(xs, h)) == multiset(FlatMap(xs, f)) + multiset(FlatMap(xs, g))
  {
    if xs != [] { FlatMapSplit(xs[1..], h, f, g); }
  }

  function With<A, B, C>(x: A, g: (A, B) -> seq<C>): B -> seq<C>
  {
    y => g(x, y)
  }

  function For<A, B, C>(y: B, g: (A, B) -> seq<C>): A -> seq<C>
  {
    x => g(x, y)
  }

  function Across<A, B, C>(ys: seq<B>, g: (A, B) -> seq<C>): A -> seq<C>
  {
    x => FlatMap(ys, With(x, g))
  }

  function Along<A, B, C>(xs: seq<A>, g: (A, B) -> seq<C>): B -> seq<C>
  {
    y => FlatMap(xs, For(y, g))
  }

  lemma {:induction false} FlatMapNothing<A, B>(xs: seq<A>, f: A -> seq<B>)
    requires forall x :: x in xs ==> f(x) == []
    ensures FlatMap(xs, f) == []
  {
    if xs != [] { FlatMapNothing(xs[1..], f); }
  }

  /** Nested loops may be exchanged. */
  lemma {:induction false} Exchange<A, B, C>(xs: seq<A>, ys: seq<B>, g: (A, B) -> seq<C>)
    ensures multiset(FlatMap(xs, Across(ys, g))) == multiset(FlatMap(ys, Along(xs, g)))
    decreases |xs|
  {
    if xs == [] {
      FlatMapNothing(ys, Along(xs, g));
    } else {
      Exchange(xs[1..], ys, g);
      FlatMapSplit(ys, Along(xs, g), With(xs[0], g), Along(xs[1..], g));
    }
  }
}
