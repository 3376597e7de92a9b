/** Sums of a natural-valued function over a finite set of segments, and over a sequence of
    row multisets. */
module Sums {

  ghost function Sum<T(!new)>(xs: set<T>, f: T -> nat): nat
  {
    if xs == {} then 0
    else
      var x :| x in xs;
      f(x) + Sum(xs - {x}, f)
  }

  /** The order in which a sum picks its terms does not matter. */
  lemma {:induction false} SumRemove<T(!new)>(xs: set<T>, f: T -> nat, x: T)
    requires x in xs
    ensures Sum(xs, f) == f(x) + Sum(xs - {x}, f)
    decreases |xs|
  {
    var y :| y in xs && Sum(xs, f) == f(y) + Sum(xs - {y}, f);
    if y != x {
      SumRemove(xs - {y}, f, x);
      SumRemove(xs - {x}, f, y);
      assert xs - {y} - {x} == xs - {x} - {y};
    }
  }

  lemma {:induction false} SumUnion<T(!new)>(xs: set<T>, ys: set<T>, f: T -> nat)
    requires xs !! ys
    ensures Sum(xs + ys, f) == Sum(xs, f) + Sum(ys, f)
    decreases |ys|
  {
    if ys == {} {
      assert xs + ys == xs;
    } else {
      var y :| y in ys;
      SumRemove(ys, f, y);
      SumRemove(xs + ys, f, y);
      assert (xs + ys) - {y} == xs + (ys - {y});
      SumUnion(xs, ys - {y}, f);
    }
  }

  lemma {:induction false} SumCongruent<T(!new)>(xs: set<T>, f: T -> nat, g: T -> nat)
    requires forall x :: x in xs ==> f(x) == g(x)
    ensures Sum(xs, f) == Sum(xs, g)
    decreases |xs|
  {
    if xs == {} {
    } else {
      var x :| x in xs;
      SumRemove(xs, f, x);
      SumRemove(xs, g, x);
      SumCongruent(xs - {x}, f, g);
    }
  }

  lemma {:induction false} SumZero<T(!new)>(xs: set<T>, f: T -> nat)
    requires forall x :: x in xs ==> f(x) == 0
    ensures Sum(xs, f) == 0
    decreases |xs|
  {
    if xs == {} {
    } else {
      var x :| x in xs;
      SumRemove(xs, f, x);
      SumZero(xs - {x}, f);
    }
  }

  /** How many copies of `r` a list of batches holds. */
  function Copies<R>(batches: seq<multiset<R>>, r: R): nat
  {
    if batches == [] then 0 else batches[0][r] + Copies(batches[1..], r)
  }

  lemma {:induction false} CopiesAppend<R>(a: seq<multiset<R>>, b: seq<multiset<R>>, r: R)
    ensures Copies(a + b, r) == Copies(a, r) + Copies(b, r)
    decreases |a|
  {
    if a == [] {
      assert a + b == b;
    } else {
      assert (a + b)[1..] == a[1..] + b;
      CopiesAppend(a[1..], b, r);
    }
  }
}
