/** Stable sorting and its top-k prefix (src/exec/ops/sort.rs, src/exec/ops/topk.rs). */
module Sorting {
  import opened Seqs

  ghost predicate TotalPreorder<T(!new)>(le: (T, T) -> bool)
  {
    && (forall x, y :: le(x, y) || le(y, x))
    && (forall x, y, z :: le(x, y) && le(y, z) ==> le(x, z))
  }

  /** Puts `x` after everything that may precede it, so ties keep arrival order. */
  function Insert<T>(s: seq<T>, x: T, le: (T, T) -> bool): (r: seq<T>)
    ensures |r| == |s| + 1 && multiset(r) == multiset(s) + multiset{x}
  {
    if s != [] && le(s[0], x) then
      assert s == [s[0]] + s[1..];
      [s[0]] + Insert(s[1..], x, le)
    else [x] + s
  }

  function InsertAll<T>(s: seq<T>, xs: seq<T>, le: (T, T) -> bool): (r: seq<T>)
    ensures |r| == |s| + |xs|
    decreases |xs|
  {
    if xs == [] then s else InsertAll(Insert(s, xs[0], le), xs[1..], le)
  }

  /** The stable sort of `xs`. */
  function Sort<T>(xs: seq<T>, le: (T, T) -> bool): (r: seq<T>)
    ensures |r| == |xs|
  {
    InsertAll([], xs, le)
  }

  function Take<T>(s: seq<T>, k: nat): seq<T>
  {
    if |s| <= k then s else s[..k]
  }

  predicate Sorted<T>(s: seq<T>, le: (T, T) -> bool)
  {
    forall i, j :: 0 <= i < j < |s| ==> le(s[i], s[j])
  }

  // ── Sort sorts, stably ─────────────────────────────────────────────────────

  lemma {:induction false} InsertSorted<T(!new)>(s: seq<T>, x: T, le: (T, T) -> bool)
    requires TotalPreorder(le) && Sorted(s, le)
    ensures Sorted(Insert(s, x, le), le)
  {
    if s != [] && le(s[0], x) {
      InsertSorted(s[1..], x, le);
      var r := Insert(s[1..], x, le);
      forall j | 0 <= j < |r| ensures le(s[0], r[j]) {
        assert r[j] in multiset(r);
        if r[j] != x { assert r[j] in s[1..]; }
      }
    } else if s != [] {
      forall j | 0 <= j < |s| ensures le(x, s[j]) {
        assert le(x, s[0]);
      }
    }
  }

  lemma {:induction false} InsertAllFacts<T(!new)>(s: seq<T>, xs: seq<T>, le: (T, T) -> bool)
    requires TotalPreorder(le) && Sorted(s, le)
    ensures Sorted(InsertAll(s, xs, le), le)
    ensures multiset(InsertAll(s, xs, le)) == multiset(s) + multiset(xs)
    decreases |xs|
  {
    if xs != [] {
      InsertSorted(s, xs[0], le);
      InsertAllFacts(Insert(s, xs[0], le), xs[1..], le);
      assert xs == [xs[0]] + xs[1..];
    }
  }

  lemma SortSorts<T(!new)>(xs: seq<T>, le: (T, T) -> bool)
    requires TotalPreorder(le)
    ensures Sorted(Sort(xs, le), le) && multiset(Sort(xs, le)) == multiset(xs)
  {
    InsertAllFacts([], xs, le);
  }

  lemma {:induction false} InsertAllBag<T>(s: seq<T>, xs: seq<T>, le: (T, T) -> bool)
    ensures multiset(InsertAll(s, xs, le)) == multiset(s) + multiset(xs)
    decreases |xs|
  {
    if xs != [] {
      InsertAllBag(Insert(s, xs[0], le), xs[1..], le);
      assert xs == [xs[0]] + xs[1..];
    }
  }

  /** Sorting depends only on how rows compare. */
  lemma {:induction false} InsertSame<T(!new)>(s: seq<T>, x: T, le: (T, T) -> bool, le': (T, T) -> bool)
    requires forall a, b :: le(a, b) == le'(a, b)
    ensures Insert(s, x, le) == Insert(s, x, le')
  {
    if s != [] && le(s[0], x) { InsertSame(s[1..], x, le, le'); }
  }

  lemma {:induction false} InsertAllSame<T(!new)>(s: seq<T>, xs: seq<T>, le: (T, T) -> bool, le': (T, T) -> bool)
    requires forall a, b :: le(a, b) == le'(a, b)
    ensures InsertAll(s, xs, le) == InsertAll(s, xs, le')
    decreases |xs|
  {
    if xs != [] {
      InsertSame(s, xs[0], le, le');
      InsertAllSame(Insert(s, xs[0], le), xs[1..], le, le');
    }
  }

  function Tie<T>(x: T, key: T, le: (T, T) -> bool): seq<T>
  {
    if le(x, key) && le(key, x) then [x] else []
  }

  /** The elements of `s` that tie with `key`, in order. */
  function Ties<T>(s: seq<T>, key: T, le: (T, T) -> bool): seq<T>
  {
    if s == [] then [] else Tie(s[0], key, le) + Ties(s[1..], key, le)
  }

  lemma TiesHead<T>(h: T, t: seq<T>, key: T, le: (T, T) -> bool)
    ensures Ties([h] + t, key, le) == Tie(h, key, le) + Ties(t, key, le)
  {
    assert ([h] + t)[1..] == t;
  }

  lemma {:induction false} InsertTies<T(!new)>(s: seq<T>, x: T, key: T, le: (T, T) -> bool)
    requires TotalPreorder(le) && Sorted(s, le)
    ensures Ties(Insert(s, x, le), key, le) == Ties(s, key, le) + Tie(x, key, le)
  {
    if s != [] && le(s[0], x) {
      InsertTies(s[1..], x, key, le);
      TiesHead(s[0], Insert(s[1..], x, le), key, le);
      Assoc(Tie(s[0], key, le), Ties(s[1..], key, le), Tie(x, key, le));
    } else {
      TiesHead(x, s, key, le);
      if Tie(x, key, le) == [] {
        assert Ties(s, key, le) + [] == Ties(s, key, le) == [] + Ties(s, key, le);
      } else {
        NoTies(s, x, key, le);
      }
    }
  }

  lemma {:induction false} NoTies<T(!new)>(s: seq<T>, x: T, key: T, le: (T, T) -> bool)
    requires TotalPreorder(le) && Sorted(s, le) && le(x, key) && le(key, x)
    requires s == [] || !le(s[0], x)
    ensures Ties(s, key, le) == []
  {
    if s != [] {
      assert !le(s[0], key);
      if |s| > 1 {
        assert le(s[0], s[1]);
        assert !le(s[1], x);
      }
      NoTies(s[1..], x, key, le);
    }
  }

  lemma {:induction false} InsertAllTies<T(!new)>(s: seq<T>, xs: seq<T>, key: T, le: (T, T) -> bool)
    requires TotalPreorder(le) && Sorted(s, le)
    ensures Ties(InsertAll(s, xs, le), key, le) == Ties(s, key, le) + Ties(xs, key, le)
    decreases |xs|
  {
    if xs == [] {
      assert Ties(s, key, le) + [] == Ties(s, key, le);
    } else {
      var next := Insert(s, xs[0], le);
      InsertSorted(s, xs[0], le);
      InsertAllTies(next, xs[1..], key, le);
      InsertTies(s, xs[0], key, le);
      Assoc(Ties(s, key, le), Tie(xs[0], key, le), Ties(xs[1..], key, le));
    }
  }

  /** Stability: rows that compare equal keep their arrival order. */
  lemma SortIsStable<T(!new)>(xs: seq<T>, key: T, le: (T, T) -> bool)
    requires TotalPreorder(le)
    ensures Ties(Sort(xs, le), key, le) == Ties(xs, key, le)
  {
    InsertAllTies([], xs, key, le);
  }

  // ── Inserting into a prefix ────────────────────────────────────────────────

  lemma {:induction false} InsertAllAppend<T>(s: seq<T>, xs: seq<T>, ys: seq<T>, le: (T, T) -> bool)
    ensures InsertAll(s, xs + ys, le) == InsertAll(InsertAll(s, xs, le), ys, le)
    decreases |xs|
  {
    if xs == [] {
      assert xs + ys == ys;
    } else {
      assert (xs + ys)[1..] == xs[1..] + ys;
      InsertAllAppend(Insert(s, xs[0], le), xs[1..], ys, le);
    }
  }

  lemma TakeCons<T>(h: T, t: seq<T>, k: nat)
    requires k > 0
    ensures Take([h] + t, k) == [h] + Take(t, k - 1)
  {
  }

  /** The first k after an insertion depend only on the first k before it. */
  lemma {:induction false} InsertPrefix<T>(s: seq<T>, x: T, k: nat, le: (T, T) -> bool)
    ensures Take(Insert(Take(s, k), x, le), k) == Take(Insert(s, x, le), k)
    decreases k
  {
    if |s| <= k {
      assert Take(s, k) == s;
    } else if k == 0 {
      assert Take(Insert(s, x, le), 0) == [];
    } else {
      if le(s[0], x) {
        InsertPrefix(s[1..], x, k - 1, le);
        InsertPast(s, x, k, le);
        TakeTail(s, k);
        InsertPast(Take(s, k), x, k, le);
      } else {
        TakeCons(x, Take(s, k), k);
        TakeCons(x, s, k);
      }
    }
  }

  lemma InsertPast<T>(s: seq<T>, x: T, k: nat, le: (T, T) -> bool)
    requires s != [] && le(s[0], x) && k > 0
    ensures Take(Insert(s, x, le), k) == [s[0]] + Take(Insert(s[1..], x, le), k - 1)
  {
    TakeCons(s[0], Insert(s[1..], x, le), k);
  }

  lemma TakeTail<T>(s: seq<T>, k: nat)
    requires 0 < k < |s|
    ensures Take(s, k) != [] && Take(s, k)[0] == s[0] && Take(s, k)[1..] == Take(s[1..], k - 1)
  {
  }

  lemma {:induction false} InsertAllPrefix<T>(s: seq<T>, xs: seq<T>, k: nat, le: (T, T) -> bool)
    ensures Take(InsertAll(Take(s, k), xs, le), k) == Take(InsertAll(s, xs, le), k)
    decreases |xs|
  {
    if xs != [] {
      var a, b := Insert(Take(s, k), xs[0], le), Insert(s, xs[0], le);
      InsertPrefix(s, xs[0], k, le);
      InsertAllPrefix(a, xs[1..], k, le);
      InsertAllPrefix(b, xs[1..], k, le);
    }
  }

  lemma {:induction false} InsertLast<T>(s: seq<T>, x: T, le: (T, T) -> bool)
    requires forall i :: 0 <= i < |s| ==> le(s[i], x)
    ensures Insert(s, x, le) == s + [x]
  {
    if s != [] {
      InsertLast(s[1..], x, le);
    }
  }

  lemma {:induction false} InsertAllInOrder<T>(s: seq<T>, xs: seq<T>, le: (T, T) -> bool)
    requires Sorted(s + xs, le)
    ensures InsertAll(s, xs, le) == s + xs
    decreases |xs|
  {
    if xs != [] {
      forall i | 0 <= i < |s| ensures le(s[i], xs[0]) {
        assert (s + xs)[i] == s[i] && (s + xs)[|s|] == xs[0];
      }
      InsertLast(s, xs[0], le);
      assert s + [xs[0]] + xs[1..] == s + xs;
      InsertAllInOrder(s + [xs[0]], xs[1..], le);
    }
  }

  lemma TakeSorted<T>(s: seq<T>, k: nat, le: (T, T) -> bool)
    requires Sorted(s, le)
    ensures Sorted(Take(s, k), le)
  {
  }

  /** Held rows are sorted already, so sorting them again inserts nothing out of place. */
  lemma SortHeld<T(!new)>(seen: seq<T>, batch: seq<T>, k: nat, le: (T, T) -> bool)
    requires TotalPreorder(le)
    ensures Sort(Take(Sort(seen, le), k) + batch, le) == InsertAll(Take(Sort(seen, le), k), batch, le)
  {
    var held := Take(Sort(seen, le), k);
    SortSorts(seen, le);
    TakeSorted(Sort(seen, le), k, le);
    assert [] + held == held;
    InsertAllInOrder([], held, le);
    InsertAllAppend([], held, batch, le);
  }

  /** Folding a batch into the k rows held gives the k first of everything seen. */
  lemma TopKFold<T(!new)>(seen: seq<T>, batch: seq<T>, k: nat, le: (T, T) -> bool)
    requires TotalPreorder(le)
    ensures Take(Sort(Take(Sort(seen, le), k) + batch, le), k) == Take(Sort(seen + batch, le), k)
  {
    SortHeld(seen, batch, k, le);
    InsertAllAppend([], seen, batch, le);
    InsertAllPrefix(Sort(seen, le), batch, k, le);
  }

  // ── Merging two partial results ────────────────────────────────────────────

  /** Elements that do not tie may be inserted in either order. */
  lemma {:induction false} InsertCommutes<T(!new)>(s: seq<T>, x: T, y: T, le: (T, T) -> bool)
    requires TotalPreorder(le) && !le(y, x)
    ensures Insert(Insert(s, x, le), y, le) == Insert(Insert(s, y, le), x, le)
  {
    assert le(x, y);
    if s == [] {
      InsertHead(x, [], y, le);
      InsertHead(y, [], x, le);
    } else {
      var h, t := s[0], s[1..];
      assert s == [h] + t;
      if le(h, x) {
        InsertCommutes(t, x, y, le);
        InsertHead(h, Insert(t, x, le), y, le);
        InsertHead(h, Insert(t, y, le), x, le);
      } else {
        InsertHead(x, s, y, le);
        if le(h, y) { InsertHead(h, Insert(t, y, le), x, le); } else { InsertHead(y, s, x, le); }
      }
    }
  }

  lemma InsertHead<T>(h: T, t: seq<T>, x: T, le: (T, T) -> bool)
    ensures Insert([h] + t, x, le) == if le(h, x) then [h] + Insert(t, x, le) else [x] + ([h] + t)
  {
    assert ([h] + t)[1..] == t;
  }

  lemma {:induction false} InsertBelow<T(!new)>(s: seq<T>, x: T, t: seq<T>, le: (T, T) -> bool)
    requires TotalPreorder(le) && forall i :: 0 <= i < |t| ==> !le(t[i], x)
    ensures InsertAll(Insert(s, x, le), t, le) == Insert(InsertAll(s, t, le), x, le)
    decreases |t|
  {
    if t != [] {
      InsertCommutes(s, x, t[0], le);
      InsertBelow(Insert(s, t[0], le), x, t[1..], le);
    }
  }

  lemma {:induction false} InsertThrough<T(!new)>(s: seq<T>, x: T, t: seq<T>, le: (T, T) -> bool)
    requires TotalPreorder(le) && Sorted(t, le)
    ensures InsertAll(s, Insert(t, x, le), le) == Insert(InsertAll(s, t, le), x, le)
    decreases |t|
  {
    if t != [] && le(t[0], x) {
      var r := [t[0]] + Insert(t[1..], x, le);
      assert r[1..] == Insert(t[1..], x, le);
      InsertThrough(Insert(s, t[0], le), x, t[1..], le);
    } else {
      assert ([x] + t)[1..] == t;
      forall i | 0 <= i < |t| ensures !le(t[i], x) {
        assert i == 0 || le(t[0], t[i]);
      }
      InsertBelow(s, x, t, le);
    }
  }

  /** Inserting sorted rows gives what inserting them as they came gives. */
  lemma {:induction false} SortFirst<T(!new)>(s: seq<T>, xs: seq<T>, le: (T, T) -> bool)
    requires TotalPreorder(le)
    ensures InsertAll(s, Sort(xs, le), le) == InsertAll(s, xs, le)
    decreases |xs|
  {
    if xs != [] {
      var n := |xs| - 1;
      var prior, x := xs[..n], xs[n];
      assert xs == prior + [x];
      assert [x][1..] == [];
      SortFirst(s, prior, le);
      SortSorts(prior, le);
      InsertAllAppend([], prior, [x], le);
      InsertAllAppend(s, prior, [x], le);
      InsertThrough(s, x, Sort(prior, le), le);
    }
  }

  /** How many leading elements may precede `t`. */
  function Lead<T>(s: seq<T>, t: T, le: (T, T) -> bool): (n: nat)
    ensures n <= |s|
  {
    if s != [] && le(s[0], t) then 1 + Lead(s[1..], t, le) else 0
  }

  lemma {:induction false} InsertLead<T(!new)>(s: seq<T>, x: T, t: T, le: (T, T) -> bool)
    requires TotalPreorder(le) && le(x, t)
    ensures Lead(Insert(s, x, le), t, le) >= Lead(s, t, le) + 1
  {
    if s != [] && le(s[0], x) {
      InsertLead(s[1..], x, t, le);
      assert ([s[0]] + Insert(s[1..], x, le))[1..] == Insert(s[1..], x, le);
    } else {
      assert ([x] + s)[1..] == s;
    }
  }

  lemma {:induction false} InsertAllLead<T(!new)>(s: seq<T>, xs: seq<T>, t: T, le: (T, T) -> bool)
    requires TotalPreorder(le) && forall i :: 0 <= i < |xs| ==> le(xs[i], t)
    ensures Lead(InsertAll(s, xs, le), t, le) >= |xs|
    ensures Lead(InsertAll(s, xs, le), t, le) >= Lead(s, t, le) + |xs|
    decreases |xs|
  {
    if xs != [] {
      InsertLead(s, xs[0], t, le);
      InsertAllLead(Insert(s, xs[0], le), xs[1..], t, le);
    }
  }

  lemma {:induction false} InsertBeyond<T>(s: seq<T>, t: T, k: nat, le: (T, T) -> bool)
    requires Lead(s, t, le) >= k
    ensures Take(Insert(s, t, le), k) == Take(s, k)
    decreases k
  {
    if k > 0 {
      InsertBeyond(s[1..], t, k - 1, le);
      assert s == [s[0]] + s[1..];
      TakeCons(s[0], s[1..], k);
      TakeCons(s[0], Insert(s[1..], t, le), k);
    }
  }

  lemma LastStaysOut<T(!new)>(s: seq<T>, prior: seq<T>, x: T, k: nat, le: (T, T) -> bool)
    requires TotalPreorder(le) && k <= |prior| && Sorted(prior + [x], le)
    ensures Take(InsertAll(s, prior + [x], le), k) == Take(InsertAll(s, prior, le), k)
  {
    forall i | 0 <= i < |prior| ensures le(prior[i], x) {
      assert (prior + [x])[i] == prior[i] && (prior + [x])[|prior|] == x;
    }
    assert [x][1..] == [];
    InsertAllAppend(s, prior, [x], le);
    InsertAllLead(s, prior, x, le);
    InsertBeyond(InsertAll(s, prior, le), x, k, le);
  }

  /** Of sorted rows, only the first k can reach the first k of a merge. */
  lemma {:induction false} OnlyFirstK<T(!new)>(s: seq<T>, t: seq<T>, k: nat, le: (T, T) -> bool)
    requires TotalPreorder(le) && Sorted(t, le)
    ensures Take(InsertAll(s, Take(t, k), le), k) == Take(InsertAll(s, t, le), k)
    decreases |t|
  {
    if |t| > k {
      var n := |t| - 1;
      var prior, x := t[..n], t[n];
      assert t == prior + [x] && [x][1..] == [];
      assert Take(prior, k) == Take(t, k);
      OnlyFirstK(s, prior, k, le);
      LastStaysOut(s, prior, x, k, le);
    }
  }

  /** Merging two workers' held rows gives the k first of all they saw. */
  lemma TopKMerge<T(!new)>(a: seq<T>, b: seq<T>, k: nat, le: (T, T) -> bool)
    requires TotalPreorder(le)
    ensures Take(Sort(Take(Sort(a, le), k) + Take(Sort(b, le), k), le), k) == Take(Sort(a + b, le), k)
  {
    var s, t := Sort(a, le), Sort(b, le);
    SortSorts(b, le);
    TopKFold(a, Take(t, k), k, le);
    InsertAllAppend([], a, Take(t, k), le);
    InsertAllAppend([], a, b, le);
    OnlyFirstK(s, t, k, le);
    SortFirst(s, b, le);
  }

  /** `TopKSink`: `seen` is the history of rows pushed into it or into sinks merged into it. */
  class TopKSink<T(!new)> {
    const k: nat
    const le: (T, T) -> bool
    var held: seq<T>
    ghost var seen: seq<T>

    ghost predicate Valid()
      reads this
    {
      TotalPreorder(le) && held == Take(Sort(seen, le), k)
    }

    constructor (k: nat, le: (T, T) -> bool)
      requires TotalPreorder(le)
      ensures Valid() && seen == [] && this.k == k && this.le == le
    {
      this.k, this.le, held, seen := k, le, [], [];
    }

    method FoldIn(incoming: seq<T>, ghost rows: seq<T>)
      requires Valid()
      requires Take(Sort(held + incoming, le), k) == Take(Sort(seen + rows, le), k)
      modifies this
      ensures Valid() && seen == old(seen) + rows
    {
      seen := seen + rows;
      if k == 0 { return; }
      if held + incoming != [] {
        held := Take(Sort(held + incoming, le), k);
      }
    }

    method Push(batch: seq<T>)
      requires Valid()
      modifies this
      ensures Valid() && seen == old(seen) + batch
    {
      TopKFold(seen, batch, k, le);
      FoldIn(batch, batch);
    }

    method Merge(other: TopKSink<T>)
      requires Valid() && other.Valid() && other != this && other.k == k && other.le == le
      modifies this
      ensures Valid() && seen == old(seen) + other.seen
    {
      TopKMerge(seen, other.seen, k, le);
      FoldIn(other.held, other.seen);
    }

    /** The answer: the first k rows of the stable sort of everything seen. */
    method Finish() returns (rows: seq<T>)
      requires Valid()
      ensures rows == Take(Sort(seen, le), k)
    {
      rows := held;
    }
  }
}
