/** The shared byte budget of one query (src/exec/context.rs). Every atomic operation is a step of
    its own, so any number of threads may be between any two of them. */
module MemoryBudget {
  import opened Options
  import opened Sums

  const UsizeMax := 0xFFFF_FFFF_FFFF_FFFF

  datatype Budget = Budget(limit: nat, used: nat, peak: nat)

  // ── The atomic operations ──────────────────────────────────────────────────

  /** `fetch_update` of `grow`: the addition is checked, then bounded by the limit. */
  function TryAdd(b: Budget, bytes: nat): Option<nat>
  {
    if b.used + bytes <= UsizeMax && b.used + bytes <= b.limit then Some(b.used + bytes) else None
  }

  function SaturatingSub(a: nat, b: nat): nat
  {
    if a >= b then a - b else 0
  }

  function Max(a: nat, b: nat): nat
  {
    if a >= b then a else b
  }

  function Min(a: nat, b: nat): nat
  {
    if a <= b then a else b
  }

  // ── Reservations and their steps ───────────────────────────────────────────

  /** Where a reservation's owner is: `Grown` added to `used` but not yet to `peak`, `Noted` not
      yet to its own count, `Shrunk` released but still counts the bytes. */
  datatype Phase = Idle | Grown(n: nat, seen: nat) | Noted(n: nat) | Shrunk(n: nat)

  datatype Holder = Holder(bytes: nat, phase: Phase)

  datatype State = State(budget: Budget, holders: map<nat, Holder>)

  datatype Action =
    | AReserve(h: nat, n: nat)
    | AGrow(h: nat, n: nat)
    | ARefused(n: nat)
    | ANote(h: nat)
    | AFinishGrow(h: nat)
    | AShrink(h: nat, n: nat)
    | AFinishShrink(h: nat)
    | ADrop(h: nat)

  predicate IsIdle(s: State, h: nat)
  {
    h in s.holders && s.holders[h].phase.Idle?
  }

  predicate Grew(s: State, t: State, h: nat, bytes: nat, n: nat)
  {
    var next := TryAdd(s.budget, n);
    next.Some? && t == State(s.budget.(used := next.value), s.holders[h := Holder(bytes, Grown(n, next.value))])
  }

  predicate Note(s: State, t: State, h: nat)
  {
    h in s.holders && s.holders[h].phase.Grown? &&
    var g := s.holders[h].phase;
    t == State(s.budget.(peak := Max(s.budget.peak, g.seen)), s.holders[h := s.holders[h].(phase := Noted(g.n))])
  }

  predicate FinishGrow(s: State, t: State, h: nat)
  {
    h in s.holders && s.holders[h].phase.Noted? &&
    t == s.(holders := s.holders[h := Holder(s.holders[h].bytes + s.holders[h].phase.n, Idle)])
  }

  predicate Shrink(s: State, t: State, h: nat, n: nat)
  {
    IsIdle(s, h) &&
    var m := Min(n, s.holders[h].bytes);
    t == State(s.budget.(used := SaturatingSub(s.budget.used, m)), s.holders[h := s.holders[h].(phase := Shrunk(m))])
  }

  predicate FinishShrink(s: State, t: State, h: nat)
  {
    h in s.holders && s.holders[h].phase.Shrunk? &&
    t == s.(holders := s.holders[h := Holder(SaturatingSub(s.holders[h].bytes, s.holders[h].phase.n), Idle)])
  }

  predicate Dropped(s: State, t: State, h: nat)
  {
    IsIdle(s, h) &&
    t == State(s.budget.(used := SaturatingSub(s.budget.used, s.holders[h].bytes)), s.holders - {h})
  }

  predicate Step(s: State, t: State, a: Action)
  {
    match a
    case AReserve(h, n) => h !in s.holders && Grew(s, t, h, 0, n)
    case AGrow(h, n) => IsIdle(s, h) && Grew(s, t, h, s.holders[h].bytes, n)
    case ARefused(n) => TryAdd(s.budget, n).None? && t == s
    case ANote(h) => Note(s, t, h)
    case AFinishGrow(h) => FinishGrow(s, t, h)
    case AShrink(h, n) => Shrink(s, t, h, n)
    case AFinishShrink(h) => FinishShrink(s, t, h)
    case ADrop(h) => Dropped(s, t, h)
  }

  predicate Init(s: State)
  {
    s.budget.limit <= UsizeMax && s.budget.used == 0 && s.budget.peak == 0 && s.holders == map[]
  }

  ghost predicate Run(states: seq<State>, actions: seq<Action>)
  {
    && |states| == |actions| + 1 && Init(states[0])
    && forall i :: 0 <= i < |actions| ==> Step(states[i], states[i + 1], actions[i])
  }

  // ── What is held ───────────────────────────────────────────────────────────

  /** A reservation's part of `used`: its bytes and the change it is in the middle of. */
  function Share(x: Holder): nat
  {
    match x.phase
    case Idle => x.bytes
    case Grown(n, _) => x.bytes + n
    case Noted(n) => x.bytes + n
    case Shrunk(n) => SaturatingSub(x.bytes, n)
  }

  function ShareIn(holders: map<nat, Holder>): nat -> nat
  {
    h => if h in holders then Share(holders[h]) else 0
  }

  ghost function Held(holders: map<nat, Holder>): nat
  {
    Sum(holders.Keys, ShareIn(holders))
  }

  ghost predicate Inv(s: State)
  {
    && s.budget.used == Held(s.holders)
    && s.budget.used <= s.budget.limit <= UsizeMax
    && forall h :: h in s.holders && s.holders[h].phase.Shrunk? ==> s.holders[h].phase.n <= s.holders[h].bytes
  }

  lemma HeldWithout(holders: map<nat, Holder>, h: nat)
    requires h in holders
    ensures Held(holders) == Share(holders[h]) + Held(holders - {h})
  {
    SumRemove(holders.Keys, ShareIn(holders), h);
    assert (holders - {h}).Keys == holders.Keys - {h};
    SumCongruent(holders.Keys - {h}, ShareIn(holders), ShareIn(holders - {h}));
  }

  lemma HeldUpdate(holders: map<nat, Holder>, h: nat, x: Holder)
    ensures Held(holders[h := x]) == Share(x) + Held(holders - {h})
  {
    HeldWithout(holders[h := x], h);
    assert holders[h := x] - {h} == holders - {h};
  }

  lemma HeldAbsent(holders: map<nat, Holder>, h: nat)
    requires h !in holders
    ensures Held(holders - {h}) == Held(holders)
  {
    assert holders - {h} == holders;
  }

  lemma GrewKeeps(s: State, t: State, h: nat, bytes: nat, n: nat)
    requires Inv(s) && Grew(s, t, h, bytes, n)
    requires h in s.holders ==> s.holders[h] == Holder(bytes, Idle)
    requires h !in s.holders ==> bytes == 0
    ensures Inv(t)
  {
    HeldUpdate(s.holders, h, t.holders[h]);
    if h in s.holders { HeldWithout(s.holders, h); } else { HeldAbsent(s.holders, h); }
  }

  lemma OneHolderKeeps(s: State, t: State, h: nat)
    requires Inv(s) && h in s.holders && h in t.holders && t.holders == s.holders[h := t.holders[h]]
    requires t.budget.limit == s.budget.limit
    requires t.budget.used + Share(s.holders[h]) == s.budget.used + Share(t.holders[h])
    requires Share(t.holders[h]) <= Share(s.holders[h])
    requires t.holders[h].phase.Shrunk? ==> t.holders[h].phase.n <= t.holders[h].bytes
    ensures Inv(t)
  {
    HeldWithout(s.holders, h);
    HeldUpdate(s.holders, h, t.holders[h]);
  }

  /** Nothing a reservation releases is more than `used` holds: the saturating subtractions are
      exact. */
  lemma ReleaseIsExact(s: State, h: nat)
    requires Inv(s) && IsIdle(s, h)
    ensures s.holders[h].bytes <= s.budget.used
  {
    HeldWithout(s.holders, h);
  }

  lemma StepKeeps(s: State, t: State, a: Action)
    requires Inv(s) && Step(s, t, a)
    ensures Inv(t) && t.budget.limit == s.budget.limit
  {
    match a {
      case AReserve(h, n) => GrewKeeps(s, t, h, 0, n);
      case AGrow(h, n) => GrewKeeps(s, t, h, s.holders[h].bytes, n);
      case ARefused(_) =>
      case ANote(h) => OneHolderKeeps(s, t, h);
      case AFinishGrow(h) => OneHolderKeeps(s, t, h);
      case AShrink(h, n) =>
        ReleaseIsExact(s, h);
        OneHolderKeeps(s, t, h);
      case AFinishShrink(h) => OneHolderKeeps(s, t, h);
      case ADrop(h) =>
        ReleaseIsExact(s, h);
        HeldWithout(s.holders, h);
    }
  }

  lemma {:induction false} RunKeeps(states: seq<State>, actions: seq<Action>, i: nat)
    requires Run(states, actions) && i < |states|
    ensures Inv(states[i]) && states[i].budget.limit == states[0].budget.limit
    decreases i
  {
    if i == 0 {
    } else {
      RunKeeps(states, actions, i - 1);
      assert Step(states[i - 1], states[i], actions[i - 1]);
      StepKeeps(states[i - 1], states[i], actions[i - 1]);
    }
  }

  // ── The theorems ───────────────────────────────────────────────────────────

  /** Accounting: at every point of every run, `used` is exactly what the live reservations hold
      plus the changes in progress, and never passes the limit. */
  lemma AccountingHolds(states: seq<State>, actions: seq<Action>, i: nat)
    requires Run(states, actions) && i < |states|
    ensures states[i].budget.used == Held(states[i].holders) <= states[0].budget.limit
  {
    RunKeeps(states, actions, i);
  }

  /** With no operation in progress, `used` is the sum of `bytes()`. */
  lemma QuiescentUse(states: seq<State>, actions: seq<Action>, i: nat)
    requires Run(states, actions) && i < |states|
    requires forall h :: h in states[i].holders ==> IsIdle(states[i], h)
    ensures var held := states[i].holders;
            states[i].budget.used == Sum(held.Keys, h => if h in held then held[h].bytes else 0)
  {
    RunKeeps(states, actions, i);
    var held := states[i].holders;
    SumCongruent(held.Keys, ShareIn(held), h => if h in held then held[h].bytes else 0);
  }

  /** Every release gives back exactly the bytes it names: no subtraction of a run saturates. */
  lemma NoReleaseSaturates(states: seq<State>, actions: seq<Action>, i: nat)
    requires Run(states, actions) && i < |actions|
    ensures Step(states[i], states[i + 1], actions[i])
    ensures actions[i].ADrop? ==>
              states[i + 1].budget.used == states[i].budget.used - states[i].holders[actions[i].h].bytes
    ensures actions[i].AShrink? ==>
              var m := Min(actions[i].n, states[i].holders[actions[i].h].bytes);
              states[i + 1].budget.used == states[i].budget.used - m
    ensures actions[i].AFinishShrink? ==>
              var x := states[i].holders[actions[i].h];
              states[i + 1].holders[actions[i].h].bytes == x.bytes - x.phase.n
  {
    RunKeeps(states, actions, i);
    assert Step(states[i], states[i + 1], actions[i]);
    if actions[i].ADrop? || actions[i].AShrink? { ReleaseIsExact(states[i], actions[i].h); }
  }

  /** A request is refused exactly when it would pass the limit; since the limit is a `usize`, the
      checked addition refuses nothing more. */
  lemma RefusedIffOverLimit(b: Budget, n: nat)
    requires b.limit <= UsizeMax
    ensures TryAdd(b, n).None? <==> b.used + n > b.limit
  {
  }

  // ── The peak ───────────────────────────────────────────────────────────────

  predicate Carries(s: State, h: nat, high: nat)
  {
    h in s.holders && s.holders[h].phase.Grown? && s.holders[h].phase.seen == high
  }

  /** `peak`, or a value some thread is about to fold into it, is the most ever used. */
  ghost predicate PeakInv(s: State, high: nat)
  {
    && s.budget.used <= high && s.budget.peak <= high
    && (forall h :: h in s.holders && s.holders[h].phase.Grown? ==> s.holders[h].phase.seen <= high)
    && (s.budget.peak == high || exists h :: Carries(s, h, high))
  }

  ghost function MostUsed(states: seq<State>, i: nat): nat
    requires i < |states|
  {
    if i == 0 then states[0].budget.used else Max(MostUsed(states, i - 1), states[i].budget.used)
  }

  lemma StepPeak(s: State, t: State, a: Action, high: nat)
    requires Inv(s) && PeakInv(s, high) && Step(s, t, a)
    ensures PeakInv(t, Max(high, t.budget.used))
  {
    var top := Max(high, t.budget.used);
    if t.budget.peak != top {
      if a.AReserve? || a.AGrow? {
        if t.budget.used > high {
          assert Carries(t, a.h, top);
        } else {
          var h :| Carries(s, h, high);
          assert Carries(t, h, top);
        }
      } else {
        var h :| Carries(s, h, high);
        assert Carries(t, h, top);
      }
    }
  }

  lemma {:induction false} RunPeak(states: seq<State>, actions: seq<Action>, i: nat)
    requires Run(states, actions) && i < |states|
    ensures PeakInv(states[i], MostUsed(states, i))
    decreases i
  {
    if i > 0 {
      RunPeak(states, actions, i - 1);
      RunKeeps(states, actions, i - 1);
      assert Step(states[i - 1], states[i], actions[i - 1]);
      StepPeak(states[i - 1], states[i], actions[i - 1], MostUsed(states, i - 1));
    }
  }

  lemma {:induction false} MostUsedIsMaximum(states: seq<State>, i: nat)
    requires i < |states|
    ensures forall j :: 0 <= j <= i ==> states[j].budget.used <= MostUsed(states, i)
    ensures exists j :: 0 <= j <= i && states[j].budget.used == MostUsed(states, i)
    decreases i
  {
    if i > 0 {
      MostUsedIsMaximum(states, i - 1);
      var j :| 0 <= j <= i - 1 && states[j].budget.used == MostUsed(states, i - 1);
      var k := if states[i].budget.used < MostUsed(states, i - 1) then j else i;
      assert states[k].budget.used == MostUsed(states, i);
    } else {
      assert states[0].budget.used == MostUsed(states, 0);
    }
  }

  /** `peak_memory` never overstates, and whenever no grow is between its two atomic operations it
      is exactly the most that was ever in use at once. */
  lemma PeakIsHistoricalMaximum(states: seq<State>, actions: seq<Action>, i: nat)
    requires Run(states, actions) && i < |states|
    ensures exists j :: 0 <= j <= i && states[i].budget.peak <= states[j].budget.used
    ensures (forall h :: h in states[i].holders ==> !states[i].holders[h].phase.Grown?) ==>
              && (forall j :: 0 <= j <= i ==> states[j].budget.used <= states[i].budget.peak)
              && exists j :: 0 <= j <= i && states[j].budget.used == states[i].budget.peak
  {
    RunPeak(states, actions, i);
    MostUsedIsMaximum(states, i);
  }

  // ── Resize ─────────────────────────────────────────────────────────────────

  /** `resize` is one grow or one shrink by the difference. */
  function ResizeAction(h: nat, held: nat, target: nat): Action
  {
    if target > held then AGrow(h, target - held) else AShrink(h, held - target)
  }

  /** Once the started change is finished, the reservation holds exactly the target. `mid` is any
      later state in which the owner is still where the first step left it. */
  lemma ResizeReachesTarget(s: State, t: State, mid: State, last: State, h: nat, target: nat)
    requires IsIdle(s, h) && Step(s, t, ResizeAction(h, s.holders[h].bytes, target))
    requires h in mid.holders && mid.holders[h].bytes == t.holders[h].bytes
    requires t.holders[h].phase.Shrunk? ==> mid.holders[h].phase == t.holders[h].phase && FinishShrink(mid, last, h)
    requires t.holders[h].phase.Grown? ==> mid.holders[h].phase == Noted(t.holders[h].phase.n) && FinishGrow(mid, last, h)
    ensures last.holders[h] == Holder(target, Idle)
  {
  }

  // ── One thread ─────────────────────────────────────────────────────────────

  /** The reservation object itself, with no other thread around. */
  class Reservation {
    var budget: Budget
    var bytes: nat

    ghost predicate Valid()
      reads this
    {
      bytes <= budget.used <= budget.limit <= UsizeMax && budget.used <= budget.peak
    }

    constructor (b: Budget)
      requires b.used <= b.limit <= UsizeMax && b.used <= b.peak
      ensures Valid() && budget == b && bytes == 0
    {
      budget, bytes := b, 0;
    }

    method Grow(n: nat) returns (ok: bool)
      requires Valid()
      modifies this
      ensures Valid()
      ensures ok <==> old(budget.used) + n <= budget.limit
      ensures budget.limit == old(budget.limit)
      ensures ok ==> bytes == old(bytes) + n && budget.used == old(budget.used) + n
                     && budget.peak == Max(old(budget.peak), budget.used)
      ensures !ok ==> bytes == old(bytes) && budget == old(budget)
    {
      var next := TryAdd(budget, n);
      if next.None? { return false; }
      budget := budget.(used := next.value);
      budget := budget.(peak := Max(budget.peak, next.value));
      bytes := bytes + n;
      ok := true;
    }

    method Shrink(n: nat)
      requires Valid()
      modifies this
      ensures Valid() && budget.limit == old(budget.limit) && budget.peak == old(budget.peak)
      ensures bytes == SaturatingSub(old(bytes), n)
      ensures budget.used - bytes == old(budget.used - bytes)
    {
      var m := Min(n, bytes);
      budget := budget.(used := SaturatingSub(budget.used, m));
      bytes := bytes - m;
    }

    /** Exactly the target, or nothing changes; the rest of `used` belongs to others and stays. */
    method Resize(target: nat) returns (ok: bool)
      requires Valid()
      modifies this
      ensures Valid() && budget.limit == old(budget.limit)
      ensures ok <==> old(budget.used - bytes) + target <= budget.limit
      ensures ok ==> bytes == target && budget.used - bytes == old(budget.used - bytes)
      ensures !ok ==> bytes == old(bytes) && budget == old(budget)
    {
      if target > bytes {
        ok := Grow(target - bytes);
      } else {
        Shrink(bytes - target);
        ok := true;
      }
    }
  }
}
