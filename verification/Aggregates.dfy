/** The per-group accumulators (src/exec/agg/basic.rs): COUNT, SUM, AVG, MIN/MAX and ARG_MIN/MAX,
    and why splitting the rows over several accumulators and merging changes nothing. */
module Aggregates {
  import opened Options
  import opened Order
  import opened Arith

  /** What one accumulator does: the state of an empty group, one more row, and another
      accumulator's state for the same group. `None` is an overflow error. */
  datatype Kind<!S, !In> = Kind(init: S, add: (S, In) -> Option<S>, join: (S, S) -> Option<S>)

  /** The state after a group's rows, in order; an error stays an error. */
  function Fold<S, In>(add: (S, In) -> Option<S>, s: S, xs: seq<In>): Option<S>
  {
    if xs == [] then Some(s)
    else
      var r := Fold(add, s, xs[..|xs| - 1]);
      if r.None? then None else add(r.value, xs[|xs| - 1])
  }

  /** The rows of group `g` that reach the accumulator; a row the filter drops or whose argument
      is NULL is `None`. */
  function RowsOf<In>(groups: seq<nat>, rows: seq<Option<In>>, g: nat): seq<In>
    requires |groups| == |rows|
  {
    if groups == [] then []
    else
      var n := |groups| - 1;
      RowsOf(groups[..n], rows[..n], g) + if groups[n] == g && rows[n].Some? then [rows[n].value] else []
  }

  function At<S>(states: seq<S>, init: S, g: nat): S
  {
    if g < |states| then states[g] else init
  }

  /** `ensure_len`. */
  function Grown<S>(states: seq<S>, init: S, total: nat): (r: seq<S>)
    ensures |r| >= total && |r| >= |states|
    ensures forall g :: 0 <= g < |r| ==> r[g] == At(states, init, g)
  {
    if |states| < total then states + seq(total - |states|, _ => init) else states
  }

  /** Every group's new state is its old one with its own rows folded in. */
  ghost predicate Folded<S, In>(
    add: (S, In) -> Option<S>, before: seq<S>, init: S, groups: seq<nat>, rows: seq<Option<In>>, after: seq<S>)
    requires |groups| == |rows|
  {
    forall g :: 0 <= g < |after| ==> Fold(add, At(before, init, g), RowsOf(groups, rows, g)) == Some(after[g])
  }

  lemma {:induction false} ErrorStays<S, In>(add: (S, In) -> Option<S>, s: S, groups: seq<nat>, rows: seq<Option<In>>, r: nat, g: nat)
    requires |groups| == |rows| && r <= |groups|
    requires Fold(add, s, RowsOf(groups[..r], rows[..r], g)).None?
    ensures Fold(add, s, RowsOf(groups, rows, g)).None?
    decreases |groups|
  {
    if r < |groups| {
      var n := |groups| - 1;
      assert groups[..n][..r] == groups[..r] && rows[..n][..r] == rows[..r];
      ErrorStays(add, s, groups[..n], rows[..n], r, g);
      var prior := RowsOf(groups[..n], rows[..n], g);
      var all := RowsOf(groups, rows, g);
      if all != prior { assert all[..|all| - 1] == prior; }
    } else {
      assert groups[..r] == groups && rows[..r] == rows;
    }
  }

  lemma RowsOfPush<In>(groups: seq<nat>, rows: seq<Option<In>>, r: nat, g: nat)
    requires |groups| == |rows| && r < |groups|
    ensures RowsOf(groups[..r + 1], rows[..r + 1], g) ==
            if groups[r] == g && rows[r].Some? then RowsOf(groups[..r], rows[..r], g) + [rows[r].value]
            else RowsOf(groups[..r], rows[..r], g)
  {
    assert groups[..r + 1][..r] == groups[..r] && rows[..r + 1][..r] == rows[..r];
  }

  lemma OneMore<S, In>(add: (S, In) -> Option<S>, s: S, xs: seq<In>, x: In)
    ensures Fold(add, s, xs + [x]) == if Fold(add, s, xs).None? then None else add(Fold(add, s, xs).value, x)
  {
    assert (xs + [x])[..|xs|] == xs;
  }

  // ── The accumulator ────────────────────────────────────────────────────────

  /** One pass over rows or over another accumulator's groups; stops at the first overflow. */
  method Absorb<S, In>(
    add: (S, In) -> Option<S>, init: S, before: seq<S>, groups: seq<nat>, total: nat, rows: seq<Option<In>>)
    returns (ok: bool, states: seq<S>)
    requires |groups| == |rows| && forall r :: 0 <= r < |groups| ==> groups[r] < total
    ensures |states| == |Grown(before, init, total)|
    ensures ok ==> Folded(add, before, init, groups, rows, states)
    ensures ok <==> forall g :: 0 <= g < total ==> Fold(add, At(before, init, g), RowsOf(groups, rows, g)).Some?
  {
    states := Grown(before, init, total);
    var r := 0;
    while r < |groups|
      invariant 0 <= r <= |groups| && |states| == |Grown(before, init, total)|
      invariant Folded(add, before, init, groups[..r], rows[..r], states)
    {
      forall g | 0 <= g < |states|
        ensures Fold(add, At(before, init, g), RowsOf(groups[..r + 1], rows[..r + 1], g)) ==
                if groups[r] == g && rows[r].Some? then add(states[g], rows[r].value) else Some(states[g])
      {
        RowsOfPush(groups, rows, r, g);
        if groups[r] == g && rows[r].Some? {
          OneMore(add, At(before, init, g), RowsOf(groups[..r], rows[..r], g), rows[r].value);
        }
      }
      if rows[r].Some? {
        var next := add(states[groups[r]], rows[r].value);
        if next.None? {
          ErrorStays(add, At(before, init, groups[r]), groups, rows, r + 1, groups[r]);
          return false, states;
        }
        states := states[groups[r] := next.value];
      }
      r := r + 1;
    }
    assert groups[..r] == groups && rows[..r] == rows;
    ok := true;
  }

  function Present<S>(states: seq<S>): (rows: seq<Option<S>>)
    ensures |rows| == |states|
  {
    seq(|states|, g requires 0 <= g < |states| => Some(states[g]))
  }

  class Accumulator<S, In> {
    const kind: Kind<S, In>
    var states: seq<S>

    constructor (kind: Kind<S, In>)
      ensures this.kind == kind && states == []
    {
      this.kind := kind;
      states := [];
    }

    method Update(groups: seq<nat>, total: nat, rows: seq<Option<In>>) returns (ok: bool)
      requires |groups| == |rows| && forall r :: 0 <= r < |groups| ==> groups[r] < total
      modifies this`states
      ensures |states| == |Grown(old(states), kind.init, total)|
      ensures ok ==> Folded(kind.add, old(states), kind.init, groups, rows, states)
      ensures ok <==> forall g :: 0 <= g < total ==>
                Fold(kind.add, At(old(states), kind.init, g), RowsOf(groups, rows, g)).Some?
    {
      ok, states := Absorb(kind.add, kind.init, states, groups, total, rows);
    }

    /** Group `g` of the other accumulator goes to `groups[g]` of this one. */
    method Merge(groups: seq<nat>, total: nat, other: seq<S>) returns (ok: bool)
      requires |groups| == |other| && forall g :: 0 <= g < |groups| ==> groups[g] < total
      modifies this`states
      ensures |states| == |Grown(old(states), kind.init, total)|
      ensures ok ==> Folded(kind.join, old(states), kind.init, groups, Present(other), states)
      ensures ok <==> forall g :: 0 <= g < total ==>
                Fold(kind.join, At(old(states), kind.init, g), RowsOf(groups, Present(other), g)).Some?
    {
      ok, states := Absorb(kind.join, kind.init, states, groups, total, Present(other));
    }
  }

  // ── Splitting the rows ─────────────────────────────────────────────────────

  ghost predicate All<In>(p: In -> bool, xs: seq<In>)
  {
    forall i :: 0 <= i < |xs| ==> p(xs[i])
  }

  /** Joining the states of two runs of rows gives the state of both runs, when nothing overflows. */
  ghost predicate JoinsTo<S, In>(k: Kind<S, In>, a: seq<In>, b: seq<In>)
  {
    var x, y, z := Fold(k.add, k.init, a), Fold(k.add, k.init, b), Fold(k.add, k.init, a + b);
    x.Some? && y.Some? && z.Some? && k.join(x.value, y.value).Some? ==> k.join(x.value, y.value) == z
  }

  ghost predicate Mergeable<S(!new), In(!new)>(k: Kind<S, In>, p: In -> bool)
  {
    forall a: seq<In>, b: seq<In> :: All(p, a) && All(p, b) ==> JoinsTo(k, a, b)
  }

  predicate Injective(m: seq<nat>)
  {
    forall g, h :: 0 <= g < h < |m| ==> m[g] != m[h]
  }

  function Renamed(groups: seq<nat>, m: seq<nat>): (r: seq<nat>)
    requires forall i :: 0 <= i < |groups| ==> groups[i] < |m|
    ensures |r| == |groups| && forall i :: 0 <= i < |r| ==> r[i] == m[groups[i]]
  {
    seq(|groups|, i requires 0 <= i < |groups| => m[groups[i]])
  }

  lemma {:induction false} RowsOfAppend<In>(ga: seq<nat>, ra: seq<Option<In>>, gb: seq<nat>, rb: seq<Option<In>>, g: nat)
    requires |ga| == |ra| && |gb| == |rb|
    ensures RowsOf(ga + gb, ra + rb, g) == RowsOf(ga, ra, g) + RowsOf(gb, rb, g)
    decreases |gb|
  {
    if gb == [] {
      assert ga + gb == ga && ra + rb == ra;
    } else {
      var n := |gb| - 1;
      assert (ga + gb)[..|ga| + n] == ga + gb[..n] && (ra + rb)[..|ga| + n] == ra + rb[..n];
      RowsOfAppend(ga, ra, gb[..n], rb[..n], g);
    }
  }

  lemma {:induction false} RowsOfNone<In>(groups: seq<nat>, rows: seq<Option<In>>, g: nat)
    requires |groups| == |rows| && forall r :: 0 <= r < |groups| ==> groups[r] != g
    ensures RowsOf(groups, rows, g) == []
    decreases |groups|
  {
    if groups != [] { RowsOfNone(groups[..|groups| - 1], rows[..|groups| - 1], g); }
  }

  lemma {:induction false} RowsOfRenamed<In>(groups: seq<nat>, rows: seq<Option<In>>, m: seq<nat>, g: nat)
    requires |groups| == |rows| && g < |m| && Injective(m)
    requires forall i :: 0 <= i < |groups| ==> groups[i] < |m|
    ensures RowsOf(Renamed(groups, m), rows, m[g]) == RowsOf(groups, rows, g)
    decreases |groups|
  {
    if groups != [] {
      var n := |groups| - 1;
      assert Renamed(groups, m)[..n] == Renamed(groups[..n], m);
      RowsOfRenamed(groups[..n], rows[..n], m, g);
      assert m[groups[n]] == m[g] <==> groups[n] == g;
    }
  }

  lemma {:induction false} RowsOfWithin<In>(groups: seq<nat>, rows: seq<Option<In>>, g: nat, p: In -> bool)
    requires |groups| == |rows| && forall r :: 0 <= r < |rows| && rows[r].Some? ==> p(rows[r].value)
    ensures All(p, RowsOf(groups, rows, g))
    decreases |groups|
  {
    if groups != [] {
      var n := |groups| - 1;
      forall r | 0 <= r < n && rows[..n][r].Some? ensures p(rows[..n][r].value) { assert rows[..n][r] == rows[r]; }
      RowsOfWithin(groups[..n], rows[..n], g, p);
    }
  }

  /** Under an injective mapping a target group receives at most one state. */
  lemma {:induction false} OneSource<S>(m: seq<nat>, states: seq<S>, g: nat)
    requires |m| == |states| && g < |m| && Injective(m)
    ensures RowsOf(m, Present(states), m[g]) == [states[g]]
    decreases |m|
  {
    var n := |m| - 1;
    assert Present(states)[..n] == Present(states[..n]);
    if g == n {
      RowsOfNone(m[..n], Present(states[..n]), m[g]);
    } else {
      OneSource(m[..n], states[..n], g);
    }
  }

  lemma SplitOneGroup<S(!new), In(!new)>(
    k: Kind<S, In>, p: In -> bool, left: seq<In>, right: seq<In>, sa: S, sb: S, merged: S, single: S)
    requires Mergeable(k, p) && All(p, left) && All(p, right)
    requires Fold(k.add, k.init, left) == Some(sa) && Fold(k.add, k.init, right) == Some(sb)
    requires Fold(k.join, sa, [sb]) == Some(merged) && Fold(k.add, k.init, left + right) == Some(single)
    ensures merged == single
  {
    assert JoinsTo(k, left, right);
    assert [sb][..0] == [];
  }

  /** Any cut of the rows, any injective group mapping: update-then-merge is the single pass. */
  lemma SplitInvariant<S(!new), In(!new)>(
    k: Kind<S, In>, p: In -> bool, ga: seq<nat>, ra: seq<Option<In>>, gb: seq<nat>, rb: seq<Option<In>>, m: seq<nat>,
    sa: seq<S>, sb: seq<S>, merged: seq<S>, single: seq<S>)
    requires Mergeable(k, p) && Injective(m) && |m| == |sb| && |merged| == |single|
    requires |ga| == |ra| && (forall r :: 0 <= r < |ga| ==> ga[r] < |sa|)
    requires |gb| == |rb| && (forall r :: 0 <= r < |gb| ==> gb[r] < |m|)
    requires forall r :: 0 <= r < |ra| && ra[r].Some? ==> p(ra[r].value)
    requires forall r :: 0 <= r < |rb| && rb[r].Some? ==> p(rb[r].value)
    requires Folded(k.add, [], k.init, ga, ra, sa) && Folded(k.add, [], k.init, gb, rb, sb)
    requires Folded(k.join, sa, k.init, m, Present(sb), merged)
    requires Folded(k.add, [], k.init, ga + Renamed(gb, m), ra + rb, single)
    ensures merged == single
  {
    forall t | 0 <= t < |merged| ensures merged[t] == single[t] {
      if t in m {
        var g :| 0 <= g < |m| && m[g] == t;
        ReachedGroup(k, p, ga, ra, gb, rb, m, sa, sb, g, merged[t], single[t]);
      } else {
        UnreachedGroup(k, ga, ra, gb, rb, m, sa, sb, t, merged[t], single[t]);
      }
    }
  }

  lemma ReachedGroup<S(!new), In(!new)>(
    k: Kind<S, In>, p: In -> bool, ga: seq<nat>, ra: seq<Option<In>>, gb: seq<nat>, rb: seq<Option<In>>, m: seq<nat>,
    sa: seq<S>, sb: seq<S>, g: nat, merged: S, single: S)
    requires Mergeable(k, p) && Injective(m) && g < |m| == |sb|
    requires |ga| == |ra| && (forall r :: 0 <= r < |ga| ==> ga[r] < |sa|)
    requires |gb| == |rb| && (forall r :: 0 <= r < |gb| ==> gb[r] < |m|)
    requires forall r :: 0 <= r < |ra| && ra[r].Some? ==> p(ra[r].value)
    requires forall r :: 0 <= r < |rb| && rb[r].Some? ==> p(rb[r].value)
    requires Folded(k.add, [], k.init, ga, ra, sa) && Folded(k.add, [], k.init, gb, rb, sb)
    requires Fold(k.join, At(sa, k.init, m[g]), RowsOf(m, Present(sb), m[g])) == Some(merged)
    requires Fold(k.add, k.init, RowsOf(ga + Renamed(gb, m), ra + rb, m[g])) == Some(single)
    ensures merged == single
  {
    GroupRows(k, ga, ra, gb, rb, m, sa, m[g]);
    OneSource(m, sb, g);
    RowsOfRenamed(gb, rb, m, g);
    RowsOfWithin(ga, ra, m[g], p);
    RowsOfWithin(gb, rb, g, p);
    assert At([], k.init, g) == k.init;
    SplitOneGroup(k, p, RowsOf(ga, ra, m[g]), RowsOf(gb, rb, g), At(sa, k.init, m[g]), sb[g], merged, single);
  }

  lemma UnreachedGroup<S, In>(
    k: Kind<S, In>, ga: seq<nat>, ra: seq<Option<In>>, gb: seq<nat>, rb: seq<Option<In>>, m: seq<nat>,
    sa: seq<S>, sb: seq<S>, t: nat, merged: S, single: S)
    requires t !in m && |m| == |sb|
    requires |ga| == |ra| && (forall r :: 0 <= r < |ga| ==> ga[r] < |sa|)
    requires |gb| == |rb| && (forall r :: 0 <= r < |gb| ==> gb[r] < |m|)
    requires Folded(k.add, [], k.init, ga, ra, sa)
    requires Fold(k.join, At(sa, k.init, t), RowsOf(m, Present(sb), t)) == Some(merged)
    requires Fold(k.add, k.init, RowsOf(ga + Renamed(gb, m), ra + rb, t)) == Some(single)
    ensures merged == single
  {
    GroupRows(k, ga, ra, gb, rb, m, sa, t);
    RowsOfNone(m, Present(sb), t);
    RowsOfNone(Renamed(gb, m), rb, t);
    assert RowsOf(ga, ra, t) + [] == RowsOf(ga, ra, t);
  }

  /** The first half's state, and how the whole run's rows divide. */
  lemma GroupRows<S, In>(
    k: Kind<S, In>, ga: seq<nat>, ra: seq<Option<In>>, gb: seq<nat>, rb: seq<Option<In>>, m: seq<nat>, sa: seq<S>, t: nat)
    requires |ga| == |ra| && (forall r :: 0 <= r < |ga| ==> ga[r] < |sa|)
    requires |gb| == |rb| && (forall r :: 0 <= r < |gb| ==> gb[r] < |m|)
    requires Folded(k.add, [], k.init, ga, ra, sa)
    ensures RowsOf(ga + Renamed(gb, m), ra + rb, t) == RowsOf(ga, ra, t) + RowsOf(Renamed(gb, m), rb, t)
    ensures Fold(k.add, k.init, RowsOf(ga, ra, t)) == Some(At(sa, k.init, t))
  {
    RowsOfAppend(ga, ra, Renamed(gb, m), rb, t);
    if t >= |sa| {
      RowsOfNone(ga, ra, t);
    } else {
      assert At([], k.init, t) == k.init;
    }
  }

  // ── COUNT ──────────────────────────────────────────────────────────────────

  function CountKind<In>(): Kind<nat, In>
  {
    Kind(0, (n, x) => Some(n + 1), (a, b) => Some(a + b))
  }

  lemma {:induction false} CountFold<In>(xs: seq<In>)
    ensures Fold(CountKind<In>().add, 0, xs) == Some(|xs|)
  {
    if xs != [] { CountFold(xs[..|xs| - 1]); }
  }

  lemma CountMergeable<In(!new)>(p: In -> bool)
    ensures Mergeable(CountKind<In>(), p)
  {
    forall a: seq<In>, b: seq<In> | All(p, a) && All(p, b) ensures JoinsTo(CountKind<In>(), a, b) {
      CountFold(a);
      CountFold(b);
      CountFold(a + b);
    }
  }

  // ── SUM ────────────────────────────────────────────────────────────────────

  datatype SumType = SumInt64 | SumUInt64 | SumDecimal

  datatype SumState = SumState(has: bool, sum: int)

  const I128Min := -I128Max - 1

  predicate InRange(t: SumType, n: int)
  {
    match t
    case SumInt64 => -0x8000_0000_0000_0000 <= n <= 0x7FFF_FFFF_FFFF_FFFF
    case SumUInt64 => 0 <= n <= 0xFFFF_FFFF_FFFF_FFFF
    case SumDecimal => true
  }

  /** `add_int`: a checked i128 addition, then the range of the output type. */
  function AddInt(t: SumType, s: SumState, v: int): Option<SumState>
  {
    var sum := s.sum + v;
    if !(I128Min <= sum <= I128Max) then None
    else if !InRange(t, sum) then None
    else Some(SumState(true, sum))
  }

  function SumKind(t: SumType): Kind<SumState, int>
  {
    Kind(SumState(false, 0), (s, v) => AddInt(t, s, v), (s, o: SumState) => if o.has then AddInt(t, s, o.sum) else Some(s))
  }

  function Total(xs: seq<int>): int
  {
    if xs == [] then 0 else Total(xs[..|xs| - 1]) + xs[|xs| - 1]
  }

  lemma {:induction false} TotalAppend(a: seq<int>, b: seq<int>)
    ensures Total(a + b) == Total(a) + Total(b)
    decreases |b|
  {
    if b == [] {
      assert a + b == a;
    } else {
      assert (a + b)[..|a + b| - 1] == a + b[..|b| - 1];
      TotalAppend(a, b[..|b| - 1]);
    }
  }

  predicate Fits(t: SumType, sum: int)
  {
    I128Min <= sum <= I128Max && InRange(t, sum)
  }

  /** Every running total stays in the output type's range. */
  ghost predicate NeverLeaves(t: SumType, xs: seq<int>)
  {
    forall n :: 0 < n <= |xs| ==> Fits(t, Total(xs[..n]))
  }

  /** SUM is the exact mathematical sum, NULL for no rows; it reports overflow exactly when some
      running total leaves the range. */
  lemma {:induction false} SumIsExact(t: SumType, xs: seq<int>)
    ensures Fold(SumKind(t).add, SumKind(t).init, xs) ==
            if NeverLeaves(t, xs) then Some(SumState(xs != [], Total(xs))) else None
  {
    if xs != [] {
      SumIsExact(t, xs[..|xs| - 1]);
      OneMoreTotal(t, xs);
    }
  }

  lemma {:induction false} OneMoreTotal(t: SumType, xs: seq<int>)
    requires xs != []
    ensures NeverLeaves(t, xs) <==> NeverLeaves(t, xs[..|xs| - 1]) && Fits(t, Total(xs))
  {
    if NeverLeaves(t, xs) { FewerTotals(t, xs); }
    if NeverLeaves(t, xs[..|xs| - 1]) && Fits(t, Total(xs)) { MoreTotals(t, xs); }
  }

  lemma {:induction false} FewerTotals(t: SumType, xs: seq<int>)
    requires xs != [] && NeverLeaves(t, xs)
    ensures NeverLeaves(t, xs[..|xs| - 1]) && Fits(t, Total(xs))
  {
    var prior := xs[..|xs| - 1];
    assert xs[..|xs|] == xs;
    forall k | 0 < k <= |prior| ensures Fits(t, Total(prior[..k])) { assert prior[..k] == xs[..k]; }
  }

  lemma {:induction false} MoreTotals(t: SumType, xs: seq<int>)
    requires xs != [] && NeverLeaves(t, xs[..|xs| - 1]) && Fits(t, Total(xs))
    ensures NeverLeaves(t, xs)
  {
    var prior := xs[..|xs| - 1];
    forall k | 0 < k <= |xs| ensures Fits(t, Total(xs[..k])) {
      if k < |xs| { assert prior[..k] == xs[..k]; } else { assert xs[..k] == xs; }
    }
  }

  /** `finish`: NULL for an empty group; a DECIMAL total must still be a DECIMAL(38, s). */
  function FinishSum(t: SumType, scale: nat, s: SumState): Option<Value>
    requires s.has ==> InRange(t, s.sum)
  {
    if !s.has then Some(Null)
    else match t
      case SumInt64 => Some(Int64(s.sum))
      case SumUInt64 => Some(UInt64(s.sum))
      case SumDecimal => if ValidDecimal(Dec(s.sum, scale)) then Some(Decimal(Dec(s.sum, scale))) else None
  }

  /** Accumulating fails exactly when the sum of some first rows is no number of the output type, or,
      for DECIMAL, none of 128 bits. */
  lemma {:induction false} SumFailsIff(t: SumType, xs: seq<int>)
    ensures Fold(SumKind(t).add, SumKind(t).init, xs).None? <==> exists n: nat :: LeavesAt(t, xs, n)
  {
    SumIsExact(t, xs);
    if n: nat :| LeavesAt(t, xs, n) {
      assert !Fits(t, Total(xs[..n]));
    }
    if !NeverLeaves(t, xs) {
      var n :| 0 < n <= |xs| && !Fits(t, Total(xs[..n]));
      assert LeavesAt(t, xs, n);
    }
  }

  predicate LeavesAt(t: SumType, xs: seq<int>, n: nat)
  {
    && 0 < n <= |xs|
    && var sum := Total(xs[..n]);
    match t
    case SumInt64 => sum < -9_223_372_036_854_775_808 || sum > 9_223_372_036_854_775_807
    case SumUInt64 => sum < 0 || sum > 18_446_744_073_709_551_615
    case SumDecimal => sum < -170_141_183_460_469_231_731_687_303_715_884_105_728 || sum > 170_141_183_460_469_231_731_687_303_715_884_105_727
  }

  /** A finished SUM is the mathematical sum of the group's rows, or an overflow error; never a
      wrapped or rounded number. Without rows it is NULL. */
  lemma FinishedSumIsExact(t: SumType, scale: nat, xs: seq<int>)
    requires NeverLeaves(t, xs) && scale <= MaxScale
    ensures var s := Fold(SumKind(t).add, SumKind(t).init, xs);
            && s.Some? && (s.value.has ==> InRange(t, s.value.sum))
            && (xs == [] ==> FinishSum(t, scale, s.value) == Some(Null))
    ensures var s := Fold(SumKind(t).add, SumKind(t).init, xs);
            xs != [] ==>
            && InRange(t, s.value.sum)
            && (t == SumInt64 ==> FinishSum(t, scale, s.value) == Some(Int64(Total(xs))))
            && (t == SumUInt64 ==> Total(xs) >= 0 && FinishSum(t, scale, s.value) == Some(UInt64(Total(xs))))
            && (t == SumDecimal && -Pow10(MaxScale) < Total(xs) < Pow10(MaxScale) ==>
                FinishSum(t, scale, s.value) == Some(Decimal(Dec(Total(xs), scale))))
            && (t == SumDecimal && !(-Pow10(MaxScale) < Total(xs) < Pow10(MaxScale)) ==>
                FinishSum(t, scale, s.value) == None)
  {
    SumIsExact(t, xs);
    if xs != [] { OneMoreTotal(t, xs); }
  }

  lemma SumMergeable(t: SumType, p: int -> bool)
    ensures Mergeable(SumKind(t), p)
  {
    forall a: seq<int>, b: seq<int> | All(p, a) && All(p, b) ensures JoinsTo(SumKind(t), a, b) {
      SumIsExact(t, a);
      SumIsExact(t, b);
      SumIsExact(t, a + b);
      TotalAppend(a, b);
      if b == [] { assert a + b == a; }
    }
  }

  /** The overflow report itself depends on the cut: one pass over [max, 1, -1] refuses, while
      [max] merged with [1, -1] does not. */
  lemma OverflowDependsOnTheCut()
    ensures var k, a, b := SumKind(SumInt64), [0x7FFF_FFFF_FFFF_FFFF], [1, -1];
            && Fold(k.add, k.init, a + b).None?
            && Fold(k.add, k.init, a).Some? && Fold(k.add, k.init, b).Some?
            && k.join(Fold(k.add, k.init, a).value, Fold(k.add, k.init, b).value).Some?
  {
    var a, b := [0x7FFF_FFFF_FFFF_FFFF], [1, -1];
    SumIsExact(SumInt64, a);
    SumIsExact(SumInt64, b);
    SumIsExact(SumInt64, a + b);
    assert (a + b)[..2] == [0x7FFF_FFFF_FFFF_FFFF, 1] && [0x7FFF_FFFF_FFFF_FFFF, 1][..1] == a && a[..0] == [];
    assert Total((a + b)[..2]) == 0x8000_0000_0000_0000;
    assert b[..1] == [1] && b[..2] == b && [1][..0] == [] && a[..1] == a;
    assert Total(b) == 0 && Total([1]) == 1 && Total(a) == 0x7FFF_FFFF_FFFF_FFFF;
  }

  function SumOf(t: SumType, xs: seq<int>): Option<SumState>
  {
    Fold(SumKind(t).add, SumKind(t).init, xs)
  }

  /** Two accumulators, one for each part of the rows, merged. */
  function SplitSum(t: SumType, a: seq<int>, b: seq<int>): Option<SumState>
  {
    var x, y := SumOf(t, a), SumOf(t, b);
    if x.None? || y.None? then None else SumKind(t).join(x.value, y.value)
  }

  /** Every running total of `b` stays in range when counted on from `start`. */
  ghost predicate StaysFrom(t: SumType, start: int, b: seq<int>)
  {
    forall n :: 0 < n <= |b| ==> FitsAfter(t, start, b, n)
  }

  predicate FitsAfter(t: SumType, start: int, b: seq<int>, n: nat)
  {
    n <= |b| && Fits(t, start + Total(b[..n]))
  }

  lemma {:induction false} TotalsAppend(t: SumType, a: seq<int>, b: seq<int>)
    ensures NeverLeaves(t, a + b) <==> NeverLeaves(t, a) && StaysFrom(t, Total(a), b)
    decreases |b|
  {
    if b == [] {
      assert a + b == a;
    } else {
      var n := |b| - 1;
      assert (a + b)[..|a + b| - 1] == a + b[..n];
      TotalsAppend(t, a, b[..n]);
      OneMoreTotal(t, a + b);
      TotalAppend(a, b);
      StaysOneMore(t, Total(a), b);
    }
  }

  lemma {:induction false} StaysOneMore(t: SumType, start: int, b: seq<int>)
    requires b != []
    ensures StaysFrom(t, start, b) <==> StaysFrom(t, start, b[..|b| - 1]) && Fits(t, start + Total(b))
  {
    if StaysFrom(t, start, b) { StaysFewer(t, start, b); }
    if StaysFrom(t, start, b[..|b| - 1]) && Fits(t, start + Total(b)) { StaysMore(t, start, b); }
  }

  lemma {:induction false} StaysFewer(t: SumType, start: int, b: seq<int>)
    requires b != [] && StaysFrom(t, start, b)
    ensures StaysFrom(t, start, b[..|b| - 1]) && Fits(t, start + Total(b))
  {
    var prior := b[..|b| - 1];
    assert b[..|b|] == b && FitsAfter(t, start, b, |b|);
    forall k | 0 < k <= |prior| ensures FitsAfter(t, start, prior, k) {
      assert FitsAfter(t, start, b, k);
      assert prior[..k] == b[..k];
    }
  }

  lemma {:induction false} StaysMore(t: SumType, start: int, b: seq<int>)
    requires b != [] && StaysFrom(t, start, b[..|b| - 1]) && Fits(t, start + Total(b))
    ensures StaysFrom(t, start, b)
  {
    var prior := b[..|b| - 1];
    forall k | 0 < k <= |b| ensures FitsAfter(t, start, b, k) {
      if k < |b| {
        assert FitsAfter(t, start, prior, k);
        assert prior[..k] == b[..k];
      } else {
        assert b[..k] == b;
      }
    }
  }

  /** The exact overflow behaviour of both ways of running: a single pass succeeds when the second
      part's running totals stay in range counted on from the first part's sum; a split run when
      they stay in range counted from zero and the whole sum is in range. Whenever both succeed
      they have the same state. */
  lemma SplitOverflowIff(t: SumType, a: seq<int>, b: seq<int>)
    ensures SumOf(t, a + b).Some? <==> NeverLeaves(t, a) && StaysFrom(t, Total(a), b)
    ensures SplitSum(t, a, b).Some? <==> NeverLeaves(t, a) && NeverLeaves(t, b) && (b == [] || Fits(t, Total(a + b)))
    ensures SumOf(t, a + b).Some? && SplitSum(t, a, b).Some? ==> SplitSum(t, a, b) == SumOf(t, a + b)
  {
    SumIsExact(t, a);
    SumIsExact(t, b);
    SumIsExact(t, a + b);
    TotalsAppend(t, a, b);
    TotalAppend(a, b);
    if b == [] { assert a + b == a; }
  }

  lemma StaysFromZero(t: SumType, b: seq<int>)
    ensures StaysFrom(t, 0, b) <==> NeverLeaves(t, b)
  {
    if StaysFrom(t, 0, b) {
      forall n | 0 < n <= |b| ensures Fits(t, Total(b[..n])) { assert FitsAfter(t, 0, b, n); }
    }
  }

  /** So the two report alike exactly when the first part overflows, or the second part's running
      totals leave the range counted from zero or over the whole sum just when they leave it
      counted from the first part's sum. */
  lemma ReportsAlikeIff(t: SumType, a: seq<int>, b: seq<int>)
    ensures (SumOf(t, a + b).Some? <==> SplitSum(t, a, b).Some?) <==>
              (NeverLeaves(t, a) ==>
                 (StaysFrom(t, Total(a), b) <==> StaysFrom(t, 0, b) && (b == [] || Fits(t, Total(a) + Total(b)))))
  {
    SplitOverflowIff(t, a, b);
    TotalAppend(a, b);
    StaysFromZero(t, b);
  }

  predicate OneSign(xs: seq<int>)
  {
    (forall i :: 0 <= i < |xs| ==> xs[i] >= 0) || (forall i :: 0 <= i < |xs| ==> xs[i] <= 0)
  }

  lemma {:induction false} RunningTotals(xs: seq<int>, n: nat, up: bool)
    requires n <= |xs| && forall i :: 0 <= i < |xs| ==> if up then xs[i] >= 0 else xs[i] <= 0
    ensures if up then 0 <= Total(xs[..n]) <= Total(xs) else Total(xs) <= Total(xs[..n]) <= 0
    decreases |xs|
  {
    if xs == [] {
      assert xs[..n] == [];
    } else if n == |xs| {
      assert xs[..n] == xs;
      RunningTotals(xs[..n - 1], 0, up);
    } else {
      assert xs[..|xs| - 1][..n] == xs[..n];
      RunningTotals(xs[..|xs| - 1], n, up);
    }
  }

  lemma PrefixTotals(xs: seq<int>, n: nat)
    requires n <= |xs| && OneSign(xs)
    ensures 0 <= Total(xs[..n]) <= Total(xs) || Total(xs) <= Total(xs[..n]) <= 0
  {
    if forall i :: 0 <= i < |xs| ==> xs[i] >= 0 { RunningTotals(xs, n, true); } else { RunningTotals(xs, n, false); }
  }

  lemma OneSignTotals(t: SumType, xs: seq<int>)
    requires OneSign(xs) && xs != []
    ensures NeverLeaves(t, xs) <==> Fits(t, Total(xs))
  {
    assert xs[..|xs|] == xs;
    forall n | 0 < n <= |xs| ensures Fits(t, Total(xs)) ==> Fits(t, Total(xs[..n])) { PrefixTotals(xs, n); }
  }

  lemma OneSignParts(t: SumType, a: seq<int>, b: seq<int>)
    requires OneSign(a + b) && a != [] && b != []
    ensures NeverLeaves(t, a + b) <==> NeverLeaves(t, a) && NeverLeaves(t, b) && Fits(t, Total(a + b))
  {
    var xs := a + b;
    assert forall i :: 0 <= i < |a| ==> a[i] == xs[i];
    assert forall i :: 0 <= i < |b| ==> b[i] == xs[|a| + i];
    OneSignTotals(t, a);
    OneSignTotals(t, b);
    OneSignTotals(t, xs);
    PrefixTotals(xs, |a|);
    assert xs[..|a|] == a;
    TotalAppend(a, b);
    SignedTotals(a, b);
  }

  /** Parts of one sign have sums no larger than the whole. */
  lemma SignedTotals(a: seq<int>, b: seq<int>)
    requires OneSign(a + b)
    ensures 0 <= Total(b) <= Total(a + b) || Total(a + b) <= Total(b) <= 0
  {
    var xs := a + b;
    assert forall i :: 0 <= i < |a| ==> a[i] == xs[i];
    assert forall i :: 0 <= i < |b| ==> b[i] == xs[|a| + i];
    TotalAppend(a, b);
    var up := forall i :: 0 <= i < |xs| ==> xs[i] >= 0;
    RunningTotals(a, 0, up);
    RunningTotals(b, 0, up);
  }

  /** Inputs of one sign, and so every UINT64 column, overflow or not however they are cut. */
  lemma OneSignReportsAlike(t: SumType, a: seq<int>, b: seq<int>)
    requires OneSign(a + b)
    ensures SplitSum(t, a, b) == SumOf(t, a + b)
  {
    SplitOverflowIff(t, a, b);
    SumIsExact(t, a + b);
    if b == [] {
      assert a + b == a;
    } else if a == [] {
      assert a + b == b;
      assert b[..|b|] == b;
    } else {
      OneSignParts(t, a, b);
      FirstPartStays(t, a, b);
    }
  }

  lemma FirstPartStays(t: SumType, a: seq<int>, b: seq<int>)
    ensures NeverLeaves(t, a + b) ==> NeverLeaves(t, a)
  {
    TotalsAppend(t, a, b);
  }

  // ── AVG over integers and decimals ─────────────────────────────────────────

  datatype AvgState = AvgState(sum: int, count: nat)

  const Two128 := 0x1_0000_0000_0000_0000_0000_0000_0000_0000

  /** An i128 addition of the release profile. */
  function Wrap128(x: int): (r: int)
    ensures I128Min <= r <= I128Max
    ensures I128Min <= x <= I128Max <==> r == x
  {
    (x - I128Min) % Two128 + I128Min
  }

  lemma WrapOver(x: int, y: int)
    ensures Wrap128(Wrap128(x) + y) == Wrap128(x + y)
  {
    var k := (x - I128Min) / Two128;
    assert Wrap128(x) == x - k * Two128;
    var n := x + y - I128Min;
    UniqueQuotient(n - k * Two128, Two128, n / Two128 - k, n % Two128);
  }

  function AvgKind(): Kind<AvgState, int>
  {
    Kind(AvgState(0, 0), (s: AvgState, v) => Some(AvgState(Wrap128(s.sum + v), s.count + 1)),
         (s: AvgState, o: AvgState) =>
           if o.count == 0 then Some(s) else Some(AvgState(Wrap128(s.sum + o.sum), s.count + o.count)))
  }

  function AvgOf(xs: seq<int>): Option<AvgState>
  {
    Fold(AvgKind().add, AvgKind().init, xs)
  }

  /** However the running totals wrapped, the sum held is the exact one if and only if that fits. */
  lemma {:induction false} AvgIsExact(xs: seq<int>)
    ensures AvgOf(xs) == Some(AvgState(Wrap128(Total(xs)), |xs|))
    ensures AvgOf(xs) == Some(AvgState(Total(xs), |xs|)) <==> I128Min <= Total(xs) <= I128Max
  {
    if xs != [] {
      var prior := xs[..|xs| - 1];
      AvgIsExact(prior);
      WrapOver(Total(prior), xs[|xs| - 1]);
    }
  }

  lemma AvgMergeable(p: int -> bool)
    ensures Mergeable(AvgKind(), p)
  {
    forall a: seq<int>, b: seq<int> | All(p, a) && All(p, b) ensures JoinsTo(AvgKind(), a, b) {
      AvgIsExact(a);
      AvgIsExact(b);
      AvgIsExact(a + b);
      TotalAppend(a, b);
      WrapOver(Total(a), Wrap128(Total(b)));
      WrapOver(Total(b), Total(a));
      if b == [] { assert a + b == a; }
    }
  }

  datatype AvgType = AvgInt64 | AvgUInt64 | AvgDecimal(precision: nat)

  predicate IsAvgType(t: AvgType)
  {
    t.AvgDecimal? ==> 1 <= t.precision <= MaxScale
  }

  function Lowest(t: AvgType): int
  {
    match t
    case AvgInt64 => -0x8000_0000_0000_0000
    case AvgUInt64 => 0
    case AvgDecimal(p) => 1 - Pow10(p)
  }

  function Highest(t: AvgType): int
  {
    match t
    case AvgInt64 => 0x7FFF_FFFF_FFFF_FFFF
    case AvgUInt64 => 0xFFFF_FFFF_FFFF_FFFF
    case AvgDecimal(p) => Pow10(p) - 1
  }

  predicate HoldsOnly(t: AvgType, xs: seq<int>)
  {
    forall i :: 0 <= i < |xs| ==> Lowest(t) <= xs[i] <= Highest(t)
  }

  /** How many rows AVG can take. */
  function RowLimit(t: AvgType): int
    requires IsAvgType(t)
  {
    match t
    case AvgInt64 => 0x1_0000_0000_0000_0000
    case AvgUInt64 => 0x8000_0000_0000_0000
    case AvgDecimal(p) => NinesPositive(p); I128Max / (Pow10(p) - 1)
  }

  lemma NinesPositive(p: nat)
    requires p >= 1
    ensures Pow10(p) - 1 >= 9
  {
    Pow10Positive(p - 1);
  }

  lemma Times(a: int, b: int, c: int)
    requires a <= b && c >= 0
    ensures a * c <= b * c
  {
    assert (b - a) * c >= 0;
  }

  /** The limit is where the extreme column leaves i128. */
  lemma LimitIsExtreme(t: AvgType, n: nat)
    requires IsAvgType(t)
    ensures n <= RowLimit(t) <==> n * Highest(t) <= I128Max && n * Lowest(t) >= I128Min
  {
    if t.AvgDecimal? { DecimalLimit(t.precision, n); }
  }

  lemma {:induction false} DecimalLimit(p: nat, n: nat)
    requires p >= 1
    ensures Pow10(p) - 1 > 0 && (n <= I128Max / (Pow10(p) - 1) <==> n * (Pow10(p) - 1) <= I128Max)
    ensures n * (1 - Pow10(p)) == -(n * (Pow10(p) - 1))
  {
    NinesPositive(p);
    var h := Pow10(p) - 1;
    var q := I128Max / h;
    assert I128Max == q * h + I128Max % h;
    if n <= q { Times(n, q, h); } else { Times(q + 1, n, h); }
  }

  lemma {:induction false} TotalBounds(xs: seq<int>, lo: int, hi: int)
    requires forall i :: 0 <= i < |xs| ==> lo <= xs[i] <= hi
    ensures |xs| * lo <= Total(xs) <= |xs| * hi
  {
    if xs != [] {
      var n := |xs| - 1;
      TotalBounds(xs[..n], lo, hi);
      assert |xs| * hi == n * hi + hi && |xs| * lo == n * lo + lo;
    }
  }

  function Copies(x: int, n: nat): seq<int>
  {
    seq(n, _ => x)
  }

  lemma TotalOfCopies(x: int, n: nat)
    ensures Total(Copies(x, n)) == n * x
  {
    TotalBounds(Copies(x, n), x, x);
  }

  /** AVG's addition is unchecked: it holds the exact sum of every column of `n` rows if and only if
      `n` is at most the type's limit; past it a column of copies of one value is misread. */
  lemma AvgExactIff(t: AvgType, n: nat)
    requires IsAvgType(t)
    ensures n <= RowLimit(t) <==>
            forall xs: seq<int> :: |xs| == n && HoldsOnly(t, xs) ==> AvgOf(xs) == Some(AvgState(Total(xs), n))
  {
    LimitIsExtreme(t, n);
    if n <= RowLimit(t) {
      forall xs: seq<int> | |xs| == n && HoldsOnly(t, xs) ensures AvgOf(xs) == Some(AvgState(Total(xs), n)) {
        TotalBounds(xs, Lowest(t), Highest(t));
        AvgIsExact(xs);
      }
    } else {
      var xs := Copies(if n * Highest(t) > I128Max then Highest(t) else Lowest(t), n);
      ExtremesHold(t);
      assert HoldsOnly(t, xs);
      TotalOfCopies(xs[0], n);
      AvgIsExact(xs);
    }
  }

  lemma ExtremesHold(t: AvgType)
    ensures Lowest(t) <= 0 <= Highest(t)
  {
    if t.AvgDecimal? { Pow10Positive(t.precision); }
  }

  /** 2^64 rows, as the accumulator's comment promises, fit exactly for INT64 and up to 18 digits. */
  lemma {:induction false} CommentHoldsIff(t: AvgType)
    requires IsAvgType(t)
    ensures RowLimit(t) >= 0x1_0000_0000_0000_0000 <==> t.AvgInt64? || (t.AvgDecimal? && t.precision <= 18)
  {
    if t.AvgDecimal? {
      DigitsOf19();
      DecimalLimit(t.precision, 0x1_0000_0000_0000_0000);
      var h := Pow10(t.precision) - 1;
      if t.precision <= 18 {
        Pow10Monotone(t.precision, 18);
        Times(h, Pow10(18), 0x1_0000_0000_0000_0000);
      } else {
        Pow10Monotone(19, t.precision);
        Times(Pow10(19) - 1, h, 0x1_0000_0000_0000_0000);
      }
    }
  }

  lemma DigitsOf19()
    ensures Pow10(18) == 1_000_000_000_000_000_000 && Pow10(19) == 10_000_000_000_000_000_000
  {
    assert Pow10(9) == 1_000_000_000;
    Pow10Add(9, 9);
  }

  /** Two rows of the largest DECIMAL(38, s) already sum to a negative number. */
  lemma TwoDecimalsOverflow()
    ensures var x := Highest(AvgDecimal(38));
            HoldsOnly(AvgDecimal(38), [x, x]) && AvgOf([x, x]).Some? && AvgOf([x, x]).value.sum < 0 < x
  {
    var x := Highest(AvgDecimal(38));
    TopPower();
    assert [x, x][..1] == [x] && [x][..0] == [];
    assert Total([]) == 0;
    assert Total([x]) == x;
    assert Total([x, x]) == 2 * x;
    AvgIsExact([x, x]);
    UniqueQuotient(2 * x - I128Min, Two128, 1, 2 * x - I128Min - Two128);
  }

  // ── MIN, MAX, ARG_MIN, ARG_MAX ─────────────────────────────────────────────

  /** A candidate: the key that competes, and what it carries — nothing for MIN and MAX, the
      value (or NULL) for ARG_MIN and ARG_MAX. */
  datatype Entry<P> = Entry(key: Value, payload: P)

  predicate Beats(isMax: bool, challenger: Value, incumbent: Value)
  {
    TotalCmp(challenger, incumbent) == Some(if isMax then Greater else Less)
  }

  /** `consider`: only a strict win replaces, so the first of equals stays. */
  function Consider<P>(isMax: bool, s: Option<Entry<P>>, e: Entry<P>): Option<Entry<P>>
  {
    if s.None? || Beats(isMax, e.key, s.value.key) then Some(e) else s
  }

  function WinnerKind<P>(isMax: bool): Kind<Option<Entry<P>>, Entry<P>>
  {
    Kind(None, (s, e) => Some(Consider(isMax, s, e)),
         (s, o: Option<Entry<P>>) => Some(if o.None? then s else Consider(isMax, s, o.value)))
  }

  ghost predicate KeysHave<P>(xs: seq<Entry<P>>, t: Type)
  {
    forall i :: 0 <= i < |xs| ==> HasType(xs[i].key, t)
  }

  lemma BeatsIsStrict(isMax: bool, a: Value, b: Value, c: Value, t: Type)
    requires HasType(a, t) && HasType(b, t) && HasType(c, t)
    ensures Beats(isMax, a, b) && !Beats(isMax, c, b) ==> Beats(isMax, a, c)
    ensures !Beats(isMax, a, b) && !Beats(isMax, b, c) ==> !Beats(isMax, a, c)
    ensures Beats(isMax, a, b) && Beats(isMax, b, c) ==> Beats(isMax, a, c)
    ensures !Beats(isMax, a, a)
    ensures Beats(isMax, a, b) ==> !Beats(isMax, b, a)
  {
    CmpFlips(a, a, t);
    CmpFlips(a, b, t);
    CmpFlips(b, c, t);
    CmpFlips(a, c, t);
    CmpFlips(c, b, t);
    CmpChains(a, b, c, t);
    CmpChains(c, b, a, t);
    CmpChains(a, c, b, t);
    CmpChains(b, c, a, t);
    CmpChains(b, a, c, t);
    CmpChains(c, a, b, t);
  }

  /** The winner of a group: an input that no input beats, and the first such. */
  ghost predicate FirstBest<P>(isMax: bool, xs: seq<Entry<P>>, i: nat)
  {
    && i < |xs|
    && (forall j :: 0 <= j < |xs| ==> !Beats(isMax, xs[j].key, xs[i].key))
    && (forall j :: 0 <= j < i ==> Beats(isMax, xs[i].key, xs[j].key))
  }

  lemma {:induction false} WinnerIsFirstBest<P>(isMax: bool, xs: seq<Entry<P>>, t: Type) returns (i: nat)
    requires KeysHave(xs, t)
    ensures xs == [] ==> Fold(WinnerKind<P>(isMax).add, None, xs) == Some(None)
    ensures xs != [] ==> FirstBest(isMax, xs, i) && Fold(WinnerKind<P>(isMax).add, None, xs) == Some(Some(xs[i]))
  {
    if xs == [] {
      i := 0;
    } else {
      var n := |xs| - 1;
      var prior, last := xs[..n], xs[n];
      i := WinnerIsFirstBest(isMax, prior, t);
      if n == 0 || Beats(isMax, last.key, prior[i].key) {
        LastWins(isMax, xs, i, t);
        i := n;
      } else {
        BeatsIsStrict(isMax, last.key, last.key, last.key, t);
      }
    }
  }

  /** By the order of the values: a group's winner is an entry whose key nothing in the group is
      greater than, for MAX, or less than, for MIN, and every entry before it falls short of it. */
  ghost predicate Extreme<P>(isMax: bool, xs: seq<Entry<P>>, i: nat, t: Type)
  {
    && i < |xs|
    && (forall j :: 0 <= j < |xs| ==> if isMax then !Below(xs[i].key, xs[j].key, t) else !Below(xs[j].key, xs[i].key, t))
    && (forall j :: 0 <= j < i ==> if isMax then Below(xs[j].key, xs[i].key, t) else Below(xs[i].key, xs[j].key, t))
  }

  lemma {:induction false} WinnerIsExtreme<P>(isMax: bool, xs: seq<Entry<P>>, t: Type) returns (i: nat)
    requires KeysHave(xs, t)
    ensures xs == [] ==> Fold(WinnerKind<P>(isMax).add, None, xs) == Some(None)
    ensures xs != [] ==> Extreme(isMax, xs, i, t) && Fold(WinnerKind<P>(isMax).add, None, xs) == Some(Some(xs[i]))
  {
    i := WinnerIsFirstBest(isMax, xs, t);
    if xs != [] {
      forall j | 0 <= j < |xs|
        ensures Beats(isMax, xs[j].key, xs[i].key) <==> if isMax then Below(xs[i].key, xs[j].key, t) else Below(xs[j].key, xs[i].key, t)
        ensures Beats(isMax, xs[i].key, xs[j].key) <==> if isMax then Below(xs[j].key, xs[i].key, t) else Below(xs[i].key, xs[j].key, t)
      {
        BeatsByOrder(isMax, xs[j].key, xs[i].key, t);
        BeatsByOrder(isMax, xs[i].key, xs[j].key, t);
      }
    }
  }

  lemma {:induction false} BeatsByOrder(isMax: bool, a: Value, b: Value, t: Type)
    requires HasType(a, t) && HasType(b, t)
    ensures Beats(isMax, a, b) <==> if isMax then Below(b, a, t) else Below(a, b, t)
  {
    CmpIsLess(a, b, t);
    CmpIsLess(b, a, t);
    CmpFlips(a, b, t);
  }

  lemma LastWins<P>(isMax: bool, xs: seq<Entry<P>>, i: nat, t: Type)
    requires KeysHave(xs, t) && xs != []
    requires |xs| > 1 ==> FirstBest(isMax, xs[..|xs| - 1], i) && Beats(isMax, xs[|xs| - 1].key, xs[i].key)
    ensures FirstBest(isMax, xs, |xs| - 1)
  {
    var n := |xs| - 1;
    BeatsIsStrict(isMax, xs[n].key, xs[n].key, xs[n].key, t);
    forall j | 0 <= j < n
      ensures Beats(isMax, xs[n].key, xs[j].key) && !Beats(isMax, xs[j].key, xs[n].key)
    {
      assert xs[..n][j] == xs[j];
      BeatsIsStrict(isMax, xs[n].key, xs[i].key, xs[j].key, t);
      BeatsIsStrict(isMax, xs[n].key, xs[j].key, xs[j].key, t);
    }
  }

  /** The first best is unique, so the law below may compare by position. */
  lemma FirstBestUnique<P>(isMax: bool, xs: seq<Entry<P>>, i: nat, j: nat)
    requires FirstBest(isMax, xs, i) && FirstBest(isMax, xs, j)
    ensures i == j
  {
    var x, y := xs[i].key, xs[j].key;
    assert !Beats(isMax, x, y) && !Beats(isMax, y, x);
  }

  lemma {:induction false} WinnerJoins<P>(isMax: bool, a: seq<Entry<P>>, b: seq<Entry<P>>, t: Type)
    requires KeysHave(a, t) && KeysHave(b, t)
    ensures JoinsTo(WinnerKind<P>(isMax), a, b)
  {
    if a == [] {
      assert a + b == b;
      var j := WinnerIsFirstBest(isMax, b, t);
    } else if b == [] {
      assert a + b == a;
      var i := WinnerIsFirstBest(isMax, a, t);
    } else {
      BothWin(isMax, a, b, t);
    }
  }

  lemma {:induction false} BothWin<P>(isMax: bool, a: seq<Entry<P>>, b: seq<Entry<P>>, t: Type)
    requires KeysHave(a, t) && KeysHave(b, t) && a != [] && b != []
    ensures JoinsTo(WinnerKind<P>(isMax), a, b)
  {
    var i := WinnerIsFirstBest(isMax, a, t);
    var j := WinnerIsFirstBest(isMax, b, t);
    var k := WinnerIsFirstBest(isMax, a + b, t);
    SameWinner(isMax, a, b, i, j, k, t);
  }

  lemma SameWinner<P>(isMax: bool, a: seq<Entry<P>>, b: seq<Entry<P>>, i: nat, j: nat, k: nat, t: Type)
    requires KeysHave(a, t) && KeysHave(b, t)
    requires FirstBest(isMax, a, i) && FirstBest(isMax, b, j) && FirstBest(isMax, a + b, k)
    ensures Consider(isMax, Some(a[i]), b[j]) == Some((a + b)[k])
  {
    JoinedFirstBest(isMax, a, b, i, j, t);
    FirstBestUnique(isMax, a + b, if Beats(isMax, b[j].key, a[i].key) then |a| + j else i, k);
  }

  lemma JoinedFirstBest<P>(isMax: bool, a: seq<Entry<P>>, b: seq<Entry<P>>, i: nat, j: nat, t: Type)
    requires KeysHave(a, t) && KeysHave(b, t) && FirstBest(isMax, a, i) && FirstBest(isMax, b, j)
    ensures FirstBest(isMax, a + b, if Beats(isMax, b[j].key, a[i].key) then |a| + j else i)
  {
    if Beats(isMax, b[j].key, a[i].key) { SecondWins(isMax, a, b, i, j, t); } else { FirstStays(isMax, a, b, i, j, t); }
  }

  lemma SecondWins<P>(isMax: bool, a: seq<Entry<P>>, b: seq<Entry<P>>, i: nat, j: nat, t: Type)
    requires KeysHave(a, t) && KeysHave(b, t) && FirstBest(isMax, a, i) && FirstBest(isMax, b, j)
    requires Beats(isMax, b[j].key, a[i].key)
    ensures FirstBest(isMax, a + b, |a| + j)
  {
    forall x | 0 <= x < |a|
      ensures Beats(isMax, b[j].key, a[x].key) && !Beats(isMax, a[x].key, b[j].key)
    {
      BeatsIsStrict(isMax, b[j].key, a[i].key, a[x].key, t);
      BeatsIsStrict(isMax, b[j].key, a[x].key, a[x].key, t);
    }
  }

  lemma FirstStays<P>(isMax: bool, a: seq<Entry<P>>, b: seq<Entry<P>>, i: nat, j: nat, t: Type)
    requires KeysHave(a, t) && KeysHave(b, t) && FirstBest(isMax, a, i) && FirstBest(isMax, b, j)
    requires !Beats(isMax, b[j].key, a[i].key)
    ensures FirstBest(isMax, a + b, i)
  {
    forall y | 0 <= y < |b| ensures !Beats(isMax, b[y].key, a[i].key) {
      BeatsIsStrict(isMax, b[y].key, b[j].key, a[i].key, t);
    }
  }

  lemma WinnerMergeable<P(!new)>(isMax: bool, t: Type)
    ensures Mergeable(WinnerKind<P>(isMax), (e: Entry<P>) => HasType(e.key, t))
  {
    var p := (e: Entry<P>) => HasType(e.key, t);
    forall a: seq<Entry<P>>, b: seq<Entry<P>> | All(p, a) && All(p, b) ensures JoinsTo(WinnerKind<P>(isMax), a, b) {
      WinnerJoins(isMax, a, b, t);
    }
  }
}
