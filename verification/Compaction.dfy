/** Choosing and checking merges (src/storage/compact.rs, src/storage/engines/append.rs): the
    straddle check, the append engine's planner, and its row-preserving split into segments. */
module Compaction {
  import opened Options
  import opened Seqs
  import M = Manifest
  import R = RowsProtocol

  const U64Max := 0xFFFF_FFFF_FFFF_FFFF
  type U64 = x: nat | x <= U64Max

  datatype Entry = Entry(id: nat, part: string, seqNo: U64, rows: nat)

  /** `segments` and the sequence numbers of the tombstones. */
  datatype TableEntry = TableEntry(segments: seq<Entry>, tombstones: seq<U64>)
  datatype MergePlan = MergePlan(part: string, inputs: seq<nat>)

  datatype Checked =
    | Accepted
    | NoInputs
    | NotLive(id: nat)
    | WrongPartition(id: nat)
    | Straddles(seqNo: U64)

  // ── What a plan must satisfy ───────────────────────────────────────────────

  predicate DistinctIds(t: TableEntry)
  {
    forall i, j :: 0 <= i < j < |t.segments| ==> t.segments[i].id != t.segments[j].id
  }

  predicate Before(x: Entry, y: Entry)
  {
    x.seqNo <= y.seqNo && x.id != y.id
  }

  /** Commits keep `segments` in sequence-number order, and ids are never reused. */
  predicate Ordered(xs: seq<Entry>)
  {
    forall i, j :: 0 <= i < j < |xs| ==> Before(xs[i], xs[j])
  }

  predicate IsInput(t: TableEntry, p: MergePlan, x: Entry)
  {
    x in t.segments && x.id in p.inputs
  }

  /** Every input is live and in the plan's partition. */
  ghost predicate InputsLive(t: TableEntry, p: MergePlan)
  {
    forall id :: id in p.inputs ==> exists x :: x in t.segments && x.id == id && x.part == p.part
  }

  /** A tombstone covers all the inputs or none of them. */
  ghost predicate CoversAlike(t: TableEntry, p: MergePlan, d: U64)
  {
    forall x, y :: IsInput(t, p, x) && IsInput(t, p, y) && x.seqNo < d ==> y.seqNo < d
  }

  ghost predicate MayMerge(t: TableEntry, p: MergePlan)
  {
    p.inputs != [] && InputsLive(t, p) && forall d :: d in t.tombstones ==> CoversAlike(t, p, d)
  }

  method FindSegment(t: TableEntry, id: nat) returns (i: nat)
    ensures i <= |t.segments|
    ensures i < |t.segments| ==> t.segments[i].id == id
    ensures i == |t.segments| ==> forall x :: x in t.segments ==> x.id != id
  {
    i := 0;
    while i < |t.segments| && t.segments[i].id != id
      invariant i <= |t.segments|
      invariant forall j :: 0 <= j < i ==> t.segments[j].id != id
    {
      i := i + 1;
    }
  }

  /** The pass over the inputs: the range of their sequence numbers, whose ends are inputs' own. */
  method ScanInputs(t: TableEntry, p: MergePlan) returns (refused: Option<Checked>, minSeq: U64, maxSeq: U64)
    requires DistinctIds(t) && p.inputs != []
    ensures refused.None? ==> InputsLive(t, p) && SeqRange(t, p, minSeq, maxSeq)
    ensures refused.Some? ==> !InputsLive(t, p) && (refused.value.NotLive? || refused.value.WrongPartition?)
    ensures refused.Some? && refused.value.NotLive? ==>
              refused.value.id in p.inputs && forall x :: x in t.segments ==> x.id != refused.value.id
    ensures refused.Some? && refused.value.WrongPartition? ==>
              exists x :: IsInput(t, p, x) && x.id == refused.value.id && x.part != p.part
  {
    minSeq, maxSeq := U64Max, 0;
    ghost var lowest, highest := Entry(0, "", 0, 0), Entry(0, "", 0, 0);
    var k := 0;
    while k < |p.inputs|
      invariant k <= |p.inputs|
      invariant forall j :: 0 <= j < k ==> exists x :: x in t.segments && x.id == p.inputs[j] && x.part == p.part
      invariant forall x :: x in t.segments && x.id in p.inputs[..k] ==> minSeq <= x.seqNo <= maxSeq
      invariant k == 0 ==> minSeq == U64Max && maxSeq == 0
      invariant k > 0 ==> IsInput(t, p, lowest) && lowest.seqNo == minSeq
      invariant k > 0 ==> IsInput(t, p, highest) && highest.seqNo == maxSeq
    {
      var id := p.inputs[k];
      var i := FindSegment(t, id);
      if i == |t.segments| {
        assert id in p.inputs && !InputsLive(t, p);
        return Some(NotLive(id)), minSeq, maxSeq;
      }
      var x := t.segments[i];
      forall y | y in t.segments && y.id == id ensures y == x {
        var j :| 0 <= j < |t.segments| && t.segments[j] == y;
      }
      assert IsInput(t, p, x);
      if x.part != p.part {
        assert id in p.inputs && !InputsLive(t, p);
        return Some(WrongPartition(id)), minSeq, maxSeq;
      }
      assert p.inputs[..k + 1] == p.inputs[..k] + [id];
      if x.seqNo <= minSeq { minSeq := x.seqNo; lowest := x; }
      if maxSeq <= x.seqNo { maxSeq := x.seqNo; highest := x; }
      k := k + 1;
    }
    assert p.inputs[..k] == p.inputs;
    refused := None;
  }

  ghost predicate SeqRange(t: TableEntry, p: MergePlan, minSeq: U64, maxSeq: U64)
  {
    && (forall x :: IsInput(t, p, x) ==> minSeq <= x.seqNo <= maxSeq)
    && (exists x :: IsInput(t, p, x) && x.seqNo == minSeq) && (exists x :: IsInput(t, p, x) && x.seqNo == maxSeq)
  }

  lemma StraddlesIff(t: TableEntry, p: MergePlan, minSeq: U64, maxSeq: U64, d: U64)
    requires SeqRange(t, p, minSeq, maxSeq)
    ensures CoversAlike(t, p, d) <==> !(minSeq < d <= maxSeq)
  {
    var lowest :| IsInput(t, p, lowest) && lowest.seqNo == minSeq;
    var highest :| IsInput(t, p, highest) && highest.seqNo == maxSeq;
  }

  /** The pass over the tombstones: the first that falls within the inputs' range. */
  method FindStraddled(t: TableEntry, p: MergePlan, minSeq: U64, maxSeq: U64) returns (r: Option<U64>)
    requires SeqRange(t, p, minSeq, maxSeq)
    ensures r.Some? ==> r.value in t.tombstones && !CoversAlike(t, p, r.value)
    ensures r.None? ==> forall d :: d in t.tombstones ==> CoversAlike(t, p, d)
  {
    var k := 0;
    while k < |t.tombstones|
      invariant k <= |t.tombstones|
      invariant forall j :: 0 <= j < k ==> CoversAlike(t, p, t.tombstones[j])
    {
      var d := t.tombstones[k];
      StraddlesIff(t, p, minSeq, maxSeq, d);
      if minSeq < d && d <= maxSeq { return Some(d); }
      k := k + 1;
    }
    r := None;
  }

  /** `validate_merge`: one pass for the range of sequence numbers, one over the tombstones.
      It accepts exactly the plans for which every tombstone treats all inputs alike. */
  method ValidateMerge(t: TableEntry, p: MergePlan) returns (r: Checked)
    requires DistinctIds(t)
    ensures r.Accepted? <==> MayMerge(t, p)
    ensures r.NoInputs? <==> p.inputs == []
    ensures r.NotLive? ==> r.id in p.inputs && forall x :: x in t.segments ==> x.id != r.id
    ensures r.WrongPartition? ==> exists x :: IsInput(t, p, x) && x.id == r.id && x.part != p.part
    ensures r.Straddles? ==> InputsLive(t, p) && r.seqNo in t.tombstones && !CoversAlike(t, p, r.seqNo)
  {
    if p.inputs == [] { return NoInputs; }
    var refused, minSeq, maxSeq := ScanInputs(t, p);
    if refused.Some? { return refused.value; }
    var straddled := FindStraddled(t, p, minSeq, maxSeq);
    if straddled.Some? { return Straddles(straddled.value); }
    return Accepted;
  }

  // ── The append engine's planner ────────────────────────────────────────────

  const MaxInputs := 32

  /** The segments of one partition, in order. */
  function Partition(segments: seq<Entry>, part: string): (r: seq<Entry>)
    ensures forall x :: x in r <==> x in segments && x.part == part
    ensures forall i :: 0 <= i < |r| ==> r[i].part == part
  {
    if segments == [] then []
    else Partition(segments[..|segments| - 1], part) + if segments[|segments| - 1].part == part then [segments[|segments| - 1]] else []
  }

  predicate Straddled(t: TableEntry, low: U64, high: U64)
  {
    exists d :: d in t.tombstones && low < d <= high
  }

  /** A run the planner is collecting, over positions `lo..hi` of the partition's segments. */
  ghost predicate GoodRun(t: TableEntry, run: seq<Entry>, minSeq: U64, small: nat)
  {
    && |run| <= MaxInputs
    && (forall i :: 0 <= i < |run| ==> run[i] in t.segments && run[i].rows < small)
    && (run != [] ==> minSeq == run[0].seqNo)
    && Ordered(run)
    && (forall i :: 0 <= i < |run| ==> !Straddled(t, minSeq, run[i].seqNo))
  }

  function IdsOf(run: seq<Entry>): (ids: seq<nat>)
    ensures |ids| == |run| && forall i :: 0 <= i < |run| ==> ids[i] == run[i].id
  {
    seq(|run|, i requires 0 <= i < |run| => run[i].id)
  }

  /** A closed run is a plan `validate_merge` accepts. */
  lemma GoodRunMayMerge(t: TableEntry, run: seq<Entry>, minSeq: U64, small: nat, part: string)
    requires Ordered(t.segments) && GoodRun(t, run, minSeq, small) && run != []
    requires forall i :: 0 <= i < |run| ==> run[i].part == part
    ensures MayMerge(t, MergePlan(part, IdsOf(run)))
  {
    var p := MergePlan(part, IdsOf(run));
    assert forall i, j :: 0 <= i < j < |t.segments| ==> Before(t.segments[i], t.segments[j]);
    assert DistinctIds(t);
    forall x | IsInput(t, p, x) ensures x in run && minSeq <= x.seqNo {
      var i :| 0 <= i < |run| && run[i].id == x.id;
      var a, b :| 0 <= a < |t.segments| && t.segments[a] == x && 0 <= b < |t.segments| && t.segments[b] == run[i];
      assert i > 0 ==> Before(run[0], run[i]);
    }
    forall id | id in p.inputs ensures exists x :: x in t.segments && x.id == id && x.part == p.part {
      var i :| 0 <= i < |run| && run[i].id == id;
    }
  }

  predicate TwoBig(xs: seq<Entry>, i: nat, small: nat)
  {
    0 < i < |xs| && xs[i - 1].rows >= small && xs[i].rows >= small
  }

  /** No small segment on one side of a big one: it begins or ends the partition, or follows another
      big one. So too for a partition without segments, which the planner is never asked about. */
  ghost predicate LonelyBig(xs: seq<Entry>, small: nat)
  {
    || xs == []
    || xs[0].rows >= small
    || xs[|xs| - 1].rows >= small
    || exists i: nat :: TwoBig(xs, i, small)
  }

  predicate BigAt(xs: seq<Entry>, i: nat, small: nat)
  {
    i < |xs| && xs[i].rows >= small && (i == 0 || xs[i - 1].rows >= small)
  }

  ghost predicate BigSoFar(xs: seq<Entry>, n: nat, small: nat)
  {
    exists i: nat :: i < n && BigAt(xs, i, small)
  }

  predicate Proposes(plans: seq<MergePlan>, inputs: seq<nat>)
  {
    exists k :: 0 <= k < |plans| && plans[k].inputs == inputs
  }

  ghost predicate GoodPlan(t: TableEntry, part: string, p: MergePlan, minInputs: nat)
  {
    && p.part == part && minInputs <= |p.inputs| <= MaxInputs
    && (p.inputs != [] ==> MayMerge(t, p))
    && forall i, j :: 0 <= i < j < |p.inputs| ==> p.inputs[i] != p.inputs[j]
  }

  ghost predicate Apart(plans: seq<MergePlan>)
  {
    forall i, j :: 0 <= i < j < |plans| ==> forall id :: id in plans[i].inputs ==> id !in plans[j].inputs
  }

  /** Ids taken so far: those of the first `n` segments. */
  ghost predicate Within(plans: seq<MergePlan>, xs: seq<Entry>, n: nat)
    requires n <= |xs|
  {
    forall k, id :: 0 <= k < |plans| && id in plans[k].inputs ==> exists i :: 0 <= i < n && xs[i].id == id
  }

  /** The plans proposed from the first `n` of the partition's segments. */
  ghost predicate PlansOk(t: TableEntry, part: string, xs: seq<Entry>, n: nat, plans: seq<MergePlan>, minInputs: nat)
  {
    && n <= |xs| && Apart(plans) && Within(plans, xs, n)
    && forall k :: 0 <= k < |plans| ==> GoodPlan(t, part, plans[k], minInputs)
  }

  /** `close_run`. */
  method CloseRun(
    ghost t: TableEntry, part: string, ghost xs: seq<Entry>, ghost lo: nat, ghost hi: nat,
    plans: seq<MergePlan>, run: seq<Entry>, ghost minSeq: U64, ghost small: nat, minInputs: nat)
    returns (r: seq<MergePlan>)
    requires Ordered(t.segments) && GoodRun(t, run, minSeq, small) && lo <= hi <= |xs| && run == xs[lo..hi]
    requires forall i :: 0 <= i < |xs| ==> xs[i].part == part
    requires Ordered(xs)
    requires PlansOk(t, part, xs, lo, plans, minInputs)
    ensures PlansOk(t, part, xs, hi, r, minInputs)
    ensures Proposes(r, []) <==> Proposes(plans, []) || (minInputs == 0 && run == [])
    ensures r == if |run| >= minInputs then plans + [MergePlan(part, IdsOf(run))] else plans
  {
    r := plans;
    if |run| >= minInputs {
      var p := MergePlan(part, IdsOf(run));
      if run != [] { GoodRunMayMerge(t, run, minSeq, small, part); }
      r := plans + [p];
      RunPlanned(t, part, xs, lo, hi, plans, run, minInputs);
      OneMorePlan(plans, p);
    } else {
      PlansLater(t, part, xs, lo, hi, plans, minInputs);
    }
  }

  lemma {:induction false} OneMorePlan(plans: seq<MergePlan>, p: MergePlan)
    ensures Proposes(plans + [p], []) <==> Proposes(plans, []) || p.inputs == []
  {
    var r := plans + [p];
    if p.inputs == [] { assert r[|plans|].inputs == []; }
    if Proposes(plans, []) {
      var k :| 0 <= k < |plans| && plans[k].inputs == [];
      assert r[k].inputs == [];
    }
  }

  lemma {:induction false} PlansLater(
    t: TableEntry, part: string, xs: seq<Entry>, lo: nat, hi: nat, plans: seq<MergePlan>, minInputs: nat)
    requires PlansOk(t, part, xs, lo, plans, minInputs) && lo <= hi <= |xs|
    ensures PlansOk(t, part, xs, hi, plans, minInputs)
  {
    forall k, id | 0 <= k < |plans| && id in plans[k].inputs ensures exists i :: 0 <= i < hi && xs[i].id == id {
      var i :| 0 <= i < lo && xs[i].id == id;
    }
  }

  /** A closed run shares no input with the plans before it. */
  lemma {:induction false} RunPlanned(
    t: TableEntry, part: string, xs: seq<Entry>, lo: nat, hi: nat, plans: seq<MergePlan>, run: seq<Entry>, minInputs: nat)
    requires lo <= hi <= |xs| && run == xs[lo..hi] && Ordered(xs) && PlansOk(t, part, xs, lo, plans, minInputs)
    requires GoodPlan(t, part, MergePlan(part, IdsOf(run)), minInputs)
    ensures PlansOk(t, part, xs, hi, plans + [MergePlan(part, IdsOf(run))], minInputs)
  {
    var p := MergePlan(part, IdsOf(run));
    forall id | id in p.inputs ensures exists i :: lo <= i < hi && xs[i].id == id {
      var i :| 0 <= i < |run| && run[i].id == id;
      assert xs[lo + i].id == id;
    }
    forall k, id | 0 <= k < |plans| && id in plans[k].inputs ensures id !in p.inputs {
      var i :| 0 <= i < lo && xs[i].id == id;
      forall j | lo <= j < hi ensures xs[j].id != id { assert Before(xs[i], xs[j]); }
    }
    PlansLater(t, part, xs, lo, hi, plans, minInputs);
  }

  lemma {:induction false} PartitionOrder(segments: seq<Entry>, part: string)
    requires Ordered(segments)
    ensures Ordered(Partition(segments, part))
  {
    if segments == [] {
      assert Partition(segments, part) == [];
    } else {
      var n := |segments| - 1;
      var prior, last := segments[..n], segments[n];
      PartitionOrder(prior, part);
      var xs := Partition(prior, part);
      forall i | 0 <= i < |xs| ensures Before(xs[i], last) {
        assert xs[i] in prior;
        var k :| 0 <= k < n && prior[k] == xs[i];
        assert Before(segments[k], segments[n]);
      }
      if last.part == part {
        var ys := xs + [last];
        forall i, j | 0 <= i < j < |ys| ensures Before(ys[i], ys[j]) { }
      } else {
        assert Partition(segments, part) == xs + [] == xs;
      }
    }
  }

  lemma PlansWeaken(t: TableEntry, part: string, xs: seq<Entry>, n: nat, plans: seq<MergePlan>, minInputs: nat)
    requires PlansOk(t, part, xs, n, plans, minInputs) && n < |xs|
    ensures PlansOk(t, part, xs, n + 1, plans, minInputs)
  {
    forall k, id | 0 <= k < |plans| && id in plans[k].inputs ensures exists i :: 0 <= i < n + 1 && xs[i].id == id {
      var i :| 0 <= i < n && xs[i].id == id;
    }
  }

  lemma ExtendRun(t: TableEntry, xs: seq<Entry>, lo: nat, i: nat, minSeq: U64, small: nat)
    requires lo <= i < |xs| && Ordered(xs) && GoodRun(t, xs[lo..i], minSeq, small) && i - lo < MaxInputs
    requires xs[i] in t.segments && xs[i].rows < small
    requires lo < i ==> !Straddled(t, minSeq, xs[i].seqNo)
    ensures xs[lo..i + 1] == xs[lo..i] + [xs[i]]
    ensures GoodRun(t, xs[lo..i + 1], if lo == i then xs[i].seqNo else minSeq, small)
  {
    var run := xs[lo..i + 1];
    assert run == xs[lo..i] + [xs[i]];
    forall a, b | 0 <= a < b < |run| ensures Before(run[a], run[b]) {
      assert run[a] == xs[lo + a] && run[b] == xs[lo + b];
    }
  }

  // ── Which runs there are ───────────────────────────────────────────────────

  /** Positions `lo .. hi` of the partition. */
  datatype Run = Run(lo: nat, hi: nat)

  /** Small segments, at most 32, that no tombstone tells apart from the first; and the run ends there
      for a reason: the partition ends, the next segment is not small, a tombstone would straddle it,
      or there are 32. */
  predicate IsRun(t: TableEntry, xs: seq<Entry>, small: nat, r: Run)
  {
    && r.lo < r.hi <= |xs| && r.hi - r.lo <= 32
    && (forall i, d :: r.lo <= i < r.hi && d in t.tombstones ==> !(xs[r.lo].seqNo < d <= xs[i].seqNo))
    && (forall i :: r.lo <= i < r.hi ==> xs[i].rows < small)
    && (r.hi == |xs| || xs[r.hi].rows >= small || r.hi - r.lo == 32
        || exists d :: d in t.tombstones && xs[r.lo].seqNo < d <= xs[r.hi].seqNo)
  }

  predicate Covered(runs: seq<Run>, i: nat)
  {
    exists k :: 0 <= k < |runs| && runs[k].lo <= i < runs[k].hi
  }

  /** Every small segment before `n` is in a run, and the runs come one after another. */
  ghost predicate RunsTo(t: TableEntry, xs: seq<Entry>, small: nat, runs: seq<Run>, n: nat)
  {
    && n <= |xs|
    && (forall k :: 0 <= k < |runs| ==> IsRun(t, xs, small, runs[k]) && runs[k].hi <= n)
    && (forall j, k :: 0 <= j < k < |runs| ==> runs[j].hi <= runs[k].lo)
    && (forall i :: 0 <= i < n && xs[i].rows < small ==> Covered(runs, i))
  }

  function RunIds(xs: seq<Entry>, r: Run): seq<nat>
  {
    if r.lo <= r.hi <= |xs| then IdsOf(xs[r.lo..r.hi]) else []
  }

  predicate Long(runs: seq<Run>, k: nat, minInputs: nat)
  {
    k < |runs| && runs[k].hi - runs[k].lo >= minInputs
  }

  ghost predicate FromRun(p: MergePlan, xs: seq<Entry>, runs: seq<Run>, minInputs: nat)
  {
    p.inputs == [] || exists j: nat :: Long(runs, j, minInputs) && p.inputs == RunIds(xs, runs[j])
  }

  /** The plans are the runs long enough. */
  ghost predicate PlansAre(plans: seq<MergePlan>, xs: seq<Entry>, runs: seq<Run>, minInputs: nat)
  {
    && (forall k: nat {:trigger Long(runs, k, minInputs)} :: Long(runs, k, minInputs) ==> Proposes(plans, RunIds(xs, runs[k])))
    && (forall k {:trigger FromRun(plans[k], xs, runs, minInputs)} :: 0 <= k < |plans| ==> FromRun(plans[k], xs, runs, minInputs))
  }

  lemma {:induction false} RunsFurther(t: TableEntry, xs: seq<Entry>, small: nat, runs: seq<Run>, lo: nat, hi: nat)
    requires RunsTo(t, xs, small, runs, lo) && IsRun(t, xs, small, Run(lo, hi))
    ensures RunsTo(t, xs, small, runs + [Run(lo, hi)], hi)
  {
    var more := runs + [Run(lo, hi)];
    forall i | 0 <= i < hi && xs[i].rows < small ensures Covered(more, i) {
      if i < lo {
        var k :| 0 <= k < |runs| && runs[k].lo <= i < runs[k].hi;
        assert more[k] == runs[k];
      } else {
        assert more[|runs|] == Run(lo, hi);
      }
    }
  }

  /** Past segments that are not small there is nothing to cover. */
  lemma {:induction false} RunsPast(t: TableEntry, xs: seq<Entry>, small: nat, runs: seq<Run>, n: nat)
    requires RunsTo(t, xs, small, runs, n) && n < |xs| && xs[n].rows >= small
    ensures RunsTo(t, xs, small, runs, n + 1)
  {
  }

  lemma {:induction false} StillProposes(plans: seq<MergePlan>, p: MergePlan, inputs: seq<nat>)
    requires Proposes(plans, inputs)
    ensures Proposes(plans + [p], inputs)
  {
    var j :| 0 <= j < |plans| && plans[j].inputs == inputs;
    assert (plans + [p])[j] == plans[j];
  }

  lemma {:induction false} StillFromRun(p: MergePlan, xs: seq<Entry>, runs: seq<Run>, r: Run, minInputs: nat)
    requires FromRun(p, xs, runs, minInputs)
    ensures FromRun(p, xs, runs + [r], minInputs)
  {
    if p.inputs != [] {
      var j: nat :| Long(runs, j, minInputs) && p.inputs == RunIds(xs, runs[j]);
      assert Long(runs + [r], j, minInputs) && (runs + [r])[j] == runs[j];
    }
  }

  lemma {:induction false} PlansFurther(plans: seq<MergePlan>, p: MergePlan, xs: seq<Entry>, runs: seq<Run>, r: Run, minInputs: nat)
    requires PlansAre(plans, xs, runs, minInputs) && r.lo < r.hi <= |xs| && p.inputs == RunIds(xs, r)
    ensures PlansAre(if r.hi - r.lo >= minInputs then plans + [p] else plans, xs, runs + [r], minInputs)
  {
    var more, all := if r.hi - r.lo >= minInputs then plans + [p] else plans, runs + [r];
    forall k: nat | Long(all, k, minInputs) ensures Proposes(more, RunIds(xs, all[k])) {
      if k < |runs| {
        assert Long(runs, k, minInputs);
        StillProposes(plans, p, RunIds(xs, runs[k]));
      } else {
        assert more[|plans|] == p;
      }
    }
    forall k | 0 <= k < |more| ensures FromRun(more[k], xs, all, minInputs) {
      if k < |plans| {
        assert FromRun(plans[k], xs, runs, minInputs);
        StillFromRun(plans[k], xs, runs, r, minInputs);
      } else {
        assert Long(all, |runs|, minInputs) && all[|runs|] == r;
      }
    }
  }

  /** An empty plan is no run's. */
  lemma {:induction false} EmptyPlan(plans: seq<MergePlan>, p: MergePlan, xs: seq<Entry>, runs: seq<Run>, minInputs: nat)
    requires PlansAre(plans, xs, runs, minInputs) && p.inputs == []
    ensures PlansAre(plans + [p], xs, runs, minInputs)
  {
    forall k: nat | Long(runs, k, minInputs) ensures Proposes(plans + [p], RunIds(xs, runs[k])) {
      StillProposes(plans, p, RunIds(xs, runs[k]));
    }
    forall k | 0 <= k < |plans + [p]| ensures FromRun((plans + [p])[k], xs, runs, minInputs) {
      if k < |plans| { assert FromRun(plans[k], xs, runs, minInputs); }
    }
  }

  /** What closing the run at `hi` makes of plans and runs. */
  lemma {:induction false} Closes(
    t: TableEntry, part: string, xs: seq<Entry>, small: nat, plans: seq<MergePlan>, runs: seq<Run>, lo: nat, hi: nat,
    run: seq<Entry>, minInputs: nat)
    returns (more: seq<Run>)
    requires lo <= hi <= |xs| && run == xs[lo..hi]
    requires RunsTo(t, xs, small, runs, lo) && PlansAre(plans, xs, runs, minInputs)
    requires lo < hi ==> IsRun(t, xs, small, Run(lo, hi))
    ensures RunsTo(t, xs, small, more, hi)
    ensures PlansAre(if |run| >= minInputs then plans + [MergePlan(part, IdsOf(run))] else plans, xs, more, minInputs)
  {
    if lo < hi {
      more := runs + [Run(lo, hi)];
      RunsFurther(t, xs, small, runs, lo, hi);
      PlansFurther(plans, MergePlan(part, IdsOf(run)), xs, runs, Run(lo, hi), minInputs);
    } else {
      more := runs;
      if |run| >= minInputs { EmptyPlan(plans, MergePlan(part, IdsOf(run)), xs, runs, minInputs); }
    }
  }

  /** The walk after `i` segments: `run` is what was collected since position `lo`. */
  ghost predicate Collected(
    t: TableEntry, part: string, xs: seq<Entry>, lo: nat, i: nat, plans: seq<MergePlan>, run: seq<Entry>,
    minSeq: U64, small: nat, minInputs: nat, runs: seq<Run>)
  {
    && lo <= i <= |xs| && run == xs[lo..i] && GoodRun(t, run, minSeq, small)
    && PlansOk(t, part, xs, lo, plans, minInputs)
    && RunsTo(t, xs, small, runs, lo) && PlansAre(plans, xs, runs, minInputs)
  }

  /** ... and nothing is collected only at the start and after a segment that is not small. */
  ghost predicate Walking(
    t: TableEntry, part: string, xs: seq<Entry>, lo: nat, i: nat, plans: seq<MergePlan>, run: seq<Entry>,
    minSeq: U64, small: nat, minInputs: nat, runs: seq<Run>)
  {
    Collected(t, part, xs, lo, i, plans, run, minSeq, small, minInputs, runs) && (run == [] <==> AfterBig(xs, i, small))
  }

  predicate AfterBig(xs: seq<Entry>, i: nat, small: nat)
    requires i <= |xs|
  {
    i == 0 || xs[i - 1].rows >= small
  }

  /** A segment that is not small is passed over. */
  lemma {:induction false} Passed(
    t: TableEntry, part: string, xs: seq<Entry>, i: nat, plans: seq<MergePlan>, minSeq: U64, small: nat, minInputs: nat, runs: seq<Run>)
    requires Collected(t, part, xs, i, i, plans, [], minSeq, small, minInputs, runs) && i < |xs| && xs[i].rows >= small
    ensures Walking(t, part, xs, i + 1, i + 1, plans, [], minSeq, small, minInputs, runs)
  {
    PlansWeaken(t, part, xs, i, plans, minInputs);
    RunsPast(t, xs, small, runs, i);
  }

  /** A small one joins the run. */
  lemma {:induction false} Joined(
    t: TableEntry, part: string, xs: seq<Entry>, lo: nat, i: nat, plans: seq<MergePlan>, run: seq<Entry>,
    minSeq: U64, small: nat, minInputs: nat, runs: seq<Run>)
    requires Collected(t, part, xs, lo, i, plans, run, minSeq, small, minInputs, runs) && i < |xs| && xs[i].rows < small
    requires Ordered(xs) && xs[i] in t.segments && |run| < MaxInputs && (run != [] ==> !Straddled(t, minSeq, xs[i].seqNo))
    ensures Walking(t, part, xs, lo, i + 1, plans, run + [xs[i]], if run == [] then xs[i].seqNo else minSeq, small, minInputs, runs)
  {
    ExtendRun(t, xs, lo, i, minSeq, small);
  }

  /** Closing the run leaves nothing collected. */
  lemma {:induction false} Closed(
    t: TableEntry, part: string, xs: seq<Entry>, i: nat, plans: seq<MergePlan>, minSeq: U64, small: nat, minInputs: nat, runs: seq<Run>)
    requires i <= |xs| && PlansOk(t, part, xs, i, plans, minInputs) && RunsTo(t, xs, small, runs, i) && PlansAre(plans, xs, runs, minInputs)
    ensures Collected(t, part, xs, i, i, plans, [], minSeq, small, minInputs, runs)
  {
  }

  /** The collected run ends here for a reason. */
  lemma {:induction false} RunEnds(t: TableEntry, xs: seq<Entry>, lo: nat, i: nat, run: seq<Entry>, minSeq: U64, small: nat)
    requires lo <= i <= |xs| && run == xs[lo..i] && GoodRun(t, run, minSeq, small)
    requires i == |xs| || xs[i].rows >= small || (run != [] && Straddled(t, minSeq, xs[i].seqNo)) || |run| >= MaxInputs
    ensures lo < i ==> IsRun(t, xs, small, Run(lo, i))
  {
    if lo < i {
      assert run[0] == xs[lo];
      forall k | lo <= k < i ensures xs[k].rows < small && !Straddled(t, xs[lo].seqNo, xs[k].seqNo) { assert run[k - lo] == xs[k]; }
    }
  }

  /** One segment of the walk. */
  method PlanStep(
    t: TableEntry, part: string, xs: seq<Entry>, ghost lo: nat, i: nat, plans: seq<MergePlan>, run: seq<Entry>,
    minSeq: U64, small: nat, minInputs: nat, ghost runs: seq<Run>)
    returns (plans': seq<MergePlan>, run': seq<Entry>, minSeq': U64, ghost lo': nat, ghost runs': seq<Run>)
    requires Ordered(t.segments) && Ordered(xs) && i < |xs| && xs[i] in t.segments
    requires forall k :: 0 <= k < |xs| ==> xs[k].part == part
    requires Walking(t, part, xs, lo, i, plans, run, minSeq, small, minInputs, runs)
    ensures Walking(t, part, xs, lo', i + 1, plans', run', minSeq', small, minInputs, runs')
    ensures Proposes(plans', []) <==> Proposes(plans, []) || (minInputs == 0 && xs[i].rows >= small && AfterBig(xs, i, small))
  {
    var x := xs[i];
    plans', run', minSeq', lo', runs' := plans, run, minSeq, lo, runs;
    var tooBig := x.rows >= small;
    var straddles := run' != [] && Straddled(t, minSeq, x.seqNo);
    if tooBig || straddles || |run'| >= MaxInputs {
      RunEnds(t, xs, lo, i, run, minSeq, small);
      runs' := Closes(t, part, xs, small, plans, runs, lo, i, run, minInputs);
      plans' := CloseRun(t, part, xs, lo, i, plans, run, minSeq, small, minInputs);
      Closed(t, part, xs, i, plans', minSeq, small, minInputs, runs');
      run' := [];
      lo' := i;
    }
    if tooBig {
      Passed(t, part, xs, i, plans', minSeq', small, minInputs, runs');
      lo' := i + 1;
    } else {
      Joined(t, part, xs, lo', i, plans', run', minSeq', small, minInputs, runs');
      if run' == [] { minSeq' := x.seqNo; }
      run' := run' + [x];
    }
  }

  /** `plan_partition`: walks the partition in sequence order. Every non-empty plan it proposes
      passes `validate_merge`; plans share no input; the plans are exactly the runs of the partition
      that are long enough, each ending only where it must; and it proposes an empty merge, which
      `validate_merge` refuses, exactly when no minimum is set and a big segment begins or ends the
      partition or follows another. */
  method PlanPartition(t: TableEntry, part: string, small: nat, minInputs: nat)
    returns (plans: seq<MergePlan>, ghost runs: seq<Run>)
    requires Ordered(t.segments)
    ensures var xs := Partition(t.segments, part); RunsTo(t, xs, small, runs, |xs|) && PlansAre(plans, xs, runs, minInputs)
    ensures forall k :: 0 <= k < |plans| ==> GoodPlan(t, part, plans[k], minInputs)
    ensures Apart(plans)
    ensures Proposes(plans, []) <==> minInputs == 0 && LonelyBig(Partition(t.segments, part), small)
  {
    var xs := Partition(t.segments, part);
    PartitionOrder(t.segments, part);
    var run, minSeq;
    ghost var lo;
    PartitionParts(t.segments, part);
    plans, run, minSeq, lo, runs := Walk(t, part, xs, small, minInputs);
    LonelyAtEnd(xs, small);
    plans, runs := LastRun(t, part, xs, lo, plans, run, minSeq, small, minInputs, runs);
  }

  lemma {:induction false} PartitionParts(segments: seq<Entry>, part: string)
    ensures var xs := Partition(segments, part); forall k :: 0 <= k < |xs| ==> xs[k].part == part && xs[k] in segments
  {
    var xs := Partition(segments, part);
    forall k | 0 <= k < |xs| ensures xs[k].part == part && xs[k] in segments { assert xs[k] in xs; }
  }

  /** `close_run` at the end of the partition. */
  method LastRun(
    ghost t: TableEntry, part: string, ghost xs: seq<Entry>, ghost lo: nat, plans: seq<MergePlan>, run: seq<Entry>,
    ghost minSeq: U64, ghost small: nat, minInputs: nat, ghost runs: seq<Run>)
    returns (plans': seq<MergePlan>, ghost runs': seq<Run>)
    requires Ordered(t.segments) && Ordered(xs) && forall k :: 0 <= k < |xs| ==> xs[k].part == part
    requires Walking(t, part, xs, lo, |xs|, plans, run, minSeq, small, minInputs, runs)
    ensures PlansOk(t, part, xs, |xs|, plans', minInputs)
    ensures RunsTo(t, xs, small, runs', |xs|) && PlansAre(plans', xs, runs', minInputs)
    ensures Proposes(plans', []) <==> Proposes(plans, []) || (minInputs == 0 && AfterBig(xs, |xs|, small))
  {
    RunEnds(t, xs, lo, |xs|, run, minSeq, small);
    runs' := Closes(t, part, xs, small, plans, runs, lo, |xs|, run, minInputs);
    plans' := CloseRun(t, part, xs, lo, |xs|, plans, run, minSeq, small, minInputs);
  }

  /** One segment that is not small, and no minimum: an empty merge is proposed, and refused. */
  method PlanLoneSegment(small: nat) returns (plans: seq<MergePlan>, verdict: Checked)
    ensures Proposes(plans, []) && verdict == NoInputs
  {
    var t := TableEntry([Entry(0, "", 1, small)], []);
    assert t.segments[..0] == [];
    assert Partition(t.segments, "") == t.segments;
    ghost var runs;
    plans, runs := PlanPartition(t, "", small, 0);
    verdict := ValidateMerge(t, MergePlan("", []));
  }

  /** The loop of `plan_partition`. */
  method Walk(t: TableEntry, part: string, xs: seq<Entry>, small: nat, minInputs: nat)
    returns (plans: seq<MergePlan>, run: seq<Entry>, minSeq: U64, ghost lo: nat, ghost runs: seq<Run>)
    requires Ordered(t.segments) && Ordered(xs)
    requires forall k :: 0 <= k < |xs| ==> xs[k].part == part && xs[k] in t.segments
    ensures Walking(t, part, xs, lo, |xs|, plans, run, minSeq, small, minInputs, runs)
    ensures Proposes(plans, []) <==> minInputs == 0 && BigSoFar(xs, |xs|, small)
  {
    Begins(t, part, xs, small, minInputs);
    plans, run, minSeq, lo, runs := [], [], 0, 0, [];
    var i: nat := 0;
    while i < |xs|
      invariant Walking(t, part, xs, lo, i, plans, run, minSeq, small, minInputs, runs)
      invariant Proposes(plans, []) <==> minInputs == 0 && BigSoFar(xs, i, small)
    {
      BigGrows(xs, i, small);
      plans, run, minSeq, lo, runs := PlanStep(t, part, xs, lo, i, plans, run, minSeq, small, minInputs, runs);
      i := i + 1;
    }
  }

  lemma {:induction false} LonelyAtEnd(xs: seq<Entry>, small: nat)
    ensures LonelyBig(xs, small) <==> BigSoFar(xs, |xs|, small) || xs == [] || xs[|xs| - 1].rows >= small
  {
    if xs != [] && xs[0].rows >= small { assert BigAt(xs, 0, small); }
    if i: nat :| TwoBig(xs, i, small) { assert BigAt(xs, i, small); }
    if i: nat :| i < |xs| && BigAt(xs, i, small) { assert i > 0 ==> TwoBig(xs, i, small); }
  }

  lemma {:induction false} Begins(t: TableEntry, part: string, xs: seq<Entry>, small: nat, minInputs: nat)
    ensures Walking(t, part, xs, 0, 0, [], [], 0, small, minInputs, [])
    ensures !BigSoFar(xs, 0, small) && !Proposes([], [])
  {
  }

  lemma {:induction false} BigGrows(xs: seq<Entry>, i: nat, small: nat)
    requires i < |xs|
    ensures BigSoFar(xs, i + 1, small) <==> BigSoFar(xs, i, small) || (xs[i].rows >= small && AfterBig(xs, i, small))
  {
    assert BigAt(xs, i, small) <==> xs[i].rows >= small && AfterBig(xs, i, small);
  }

  // ── Splitting rows into segments ───────────────────────────────────────────

  function Flatten<B>(xs: seq<seq<B>>): seq<B>
  {
    if xs == [] then [] else Flatten(xs[..|xs| - 1]) + xs[|xs| - 1]
  }

  function RowCount<B>(xs: seq<seq<B>>): nat
  {
    if xs == [] then 0 else RowCount(xs[..|xs| - 1]) + |xs[|xs| - 1]|
  }

  /** A segment is never empty; one over the limit holds a single batch. */
  predicate Fits<B>(segment: seq<seq<B>>, maxRows: nat)
  {
    segment != [] && (|segment| == 1 || RowCount(segment) <= maxRows)
  }

  /** `a` was closed only because the first batch of `b` did not fit. */
  predicate Full<B>(a: seq<seq<B>>, b: seq<seq<B>>, maxRows: nat)
  {
    b == [] || RowCount(a) + |b[0]| > maxRows
  }

  predicate Tight<B>(segments: seq<seq<seq<B>>>, maxRows: nat)
  {
    && (forall i :: 0 <= i < |segments| ==> Fits(segments[i], maxRows))
    && (forall i :: 0 < i < |segments| ==> Full(segments[i - 1], segments[i], maxRows))
  }

  lemma FlattenPush<B>(xs: seq<seq<B>>, x: seq<B>)
    ensures Flatten(xs + [x]) == Flatten(xs) + x && RowCount(xs + [x]) == RowCount(xs) + |x|
  {
    assert (xs + [x])[..|xs|] == xs;
  }

  /** The loop's state after some batches: closed segments, then the open one. */
  predicate Splitting<B>(segments: seq<seq<seq<B>>>, current: seq<seq<B>>, maxRows: nat)
  {
    && Tight(segments, maxRows)
    && (current == [] ==> segments == [])
    && (current != [] ==> Fits(current, maxRows))
    && (segments != [] ==> Full(segments[|segments| - 1], current, maxRows))
  }

  lemma CloseSegment<B>(segments: seq<seq<seq<B>>>, current: seq<seq<B>>, b: seq<B>, maxRows: nat)
    requires Splitting(segments, current, maxRows) && current != [] && RowCount(current) + |b| > maxRows
    ensures Splitting(segments + [current], [b], maxRows)
    ensures RowCount([b]) == |b|
  {
    assert [b][..0] == [];
    var next := segments + [current];
    forall i | 0 < i < |next| ensures Full(next[i - 1], next[i], maxRows) {
      if i < |segments| { assert Full(segments[i - 1], segments[i], maxRows); }
    }
  }

  lemma ExtendSegment<B>(segments: seq<seq<seq<B>>>, current: seq<seq<B>>, b: seq<B>, maxRows: nat)
    requires Splitting(segments, current, maxRows) && (current == [] || RowCount(current) + |b| <= maxRows)
    ensures Splitting(segments, current + [b], maxRows)
  {
    FlattenPush(current, b);
    if segments != [] { assert (current + [b])[0] == current[0]; }
  }

  lemma LastSegment<B>(segments: seq<seq<seq<B>>>, current: seq<seq<B>>, maxRows: nat)
    requires Splitting(segments, current, maxRows) && current != []
    ensures Tight(segments + [current], maxRows)
  {
    var next := segments + [current];
    forall i | 0 < i < |next| ensures Full(next[i - 1], next[i], maxRows) {
      if i < |segments| { assert Full(segments[i - 1], segments[i], maxRows); }
    }
  }

  /** The same, with the batches taken so far. */
  ghost predicate Taken<B>(segments: seq<seq<seq<B>>>, current: seq<seq<B>>, rows: nat, batches: seq<seq<B>>, i: nat, maxRows: nat)
  {
    && i <= |batches| && Flatten(segments) + current == batches[..i]
    && rows == RowCount(current) && Splitting(segments, current, maxRows)
  }

  lemma {:induction false} TakeAfterClosing<B>(
    segments: seq<seq<seq<B>>>, current: seq<seq<B>>, rows: nat, batches: seq<seq<B>>, i: nat, maxRows: nat)
    requires Taken(segments, current, rows, batches, i, maxRows) && i < |batches|
    requires current != [] && rows + |batches[i]| > maxRows
    ensures Taken(segments + [current], [batches[i]], |batches[i]|, batches, i + 1, maxRows)
  {
    CloseSegment(segments, current, batches[i], maxRows);
    FlattenPush(segments, current);
    assert batches[..i + 1] == batches[..i] + [batches[i]];
  }

  lemma {:induction false} TakeInto<B>(
    segments: seq<seq<seq<B>>>, current: seq<seq<B>>, rows: nat, batches: seq<seq<B>>, i: nat, maxRows: nat)
    requires Taken(segments, current, rows, batches, i, maxRows) && i < |batches|
    requires current == [] || rows + |batches[i]| <= maxRows
    ensures Taken(segments, current + [batches[i]], rows + |batches[i]|, batches, i + 1, maxRows)
  {
    ExtendSegment(segments, current, batches[i], maxRows);
    FlattenPush(current, batches[i]);
    assert batches[..i + 1] == batches[..i] + [batches[i]];
    Assoc(Flatten(segments), current, [batches[i]]);
  }

  lemma {:induction false} TakenAll<B>(
    segments: seq<seq<seq<B>>>, current: seq<seq<B>>, rows: nat, batches: seq<seq<B>>, maxRows: nat)
    requires Taken(segments, current, rows, batches, |batches|, maxRows)
    ensures var all := if current != [] then segments + [current] else segments;
            Flatten(all) == batches && Tight(all, maxRows)
  {
    assert batches[..|batches|] == batches;
    if current != [] {
      LastSegment(segments, current, maxRows);
      FlattenPush(segments, current);
    } else {
      assert Flatten(segments) + current == Flatten(segments);
    }
  }

  /** `split_into_segments`: keeps every batch, whole and in order. */
  method SplitIntoSegments<B>(batches: seq<seq<B>>, maxRows: nat) returns (segments: seq<seq<seq<B>>>)
    ensures Flatten(segments) == batches && Tight(segments, maxRows)
  {
    segments := [];
    var current: seq<seq<B>>, rows: nat, i: nat := [], 0, 0;
    while i < |batches|
      invariant Taken(segments, current, rows, batches, i, maxRows)
    {
      var b := batches[i];
      if current != [] && rows + |b| > maxRows {
        TakeAfterClosing(segments, current, rows, batches, i, maxRows);
        segments := segments + [current];
        current := [];
        rows := 0;
      } else {
        TakeInto(segments, current, rows, batches, i, maxRows);
      }
      current := current + [b];
      rows := rows + |b|;
      i := i + 1;
    }
    TakenAll(segments, current, rows, batches, maxRows);
    if current != [] {
      segments := segments + [current];
    }
  }

  // ── The protocol's merge plans ─────────────────────────────────────────────

  ghost function Abstract(t: TableEntry, preds: map<U64, nat>): M.Table
  {
    M.Table(0, set x | x in t.segments :: M.Segment(x.id, x.seqNo),
            set d | d in t.tombstones && d in preds :: M.Tombstone(d, preds[d]))
  }

  ghost function InputsOf(t: TableEntry, p: MergePlan): set<M.Segment>
  {
    set x | x in t.segments && x.id in p.inputs :: M.Segment(x.id, x.seqNo)
  }

  /** A plan `validate_merge` accepts is one the store protocol may prepare, under the largest
      input sequence number and under no other. */
  lemma AcceptedPlansAreSafe(t: TableEntry, p: MergePlan, preds: map<U64, nat>, top: U64, outputs: set<M.Segment>)
    requires MayMerge(t, p)
    requires forall x :: IsInput(t, p, x) ==> x.seqNo <= top
    requires exists x :: IsInput(t, p, x) && x.seqNo == top
    ensures R.ValidPlan(Abstract(t, preds), R.Plan(InputsOf(t, p), outputs, top))
    ensures forall s :: R.ValidPlan(Abstract(t, preds), R.Plan(InputsOf(t, p), outputs, s)) ==> s == top
  {
    var q := R.Plan(InputsOf(t, p), outputs, top);
    var m :| IsInput(t, p, m) && m.seqNo == top;
    assert M.Segment(m.id, m.seqNo) in q.inputs;
    forall x, d | x in q.inputs && d in Abstract(t, preds).tombstones ensures !(x.seqNo < d.seqNo <= top) {
      var y :| y in t.segments && y.id in p.inputs && M.Segment(y.id, y.seqNo) == x;
      assert IsInput(t, p, y) && CoversAlike(t, p, d.seqNo);
    }
    forall s | R.ValidPlan(Abstract(t, preds), R.Plan(InputsOf(t, p), outputs, s)) ensures s == top {
      assert M.Segment(m.id, m.seqNo).seqNo <= s;
      var x :| x in InputsOf(t, p) && x.seqNo == s;
    }
  }
}
