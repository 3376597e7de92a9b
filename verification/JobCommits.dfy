/** The steps of the migration protocol are commits of the manifest: starting, carrying, swapping and
    cancelling, and the flushes and deletes between them, publish what `Commit::apply` makes of the
    edits the source hands it (src/storage/migrate.rs, manifest/commit.rs). */
module JobCommits {
  import opened Manifest
  import opened Commits
  import G = Migration

  /** The manifest holds the migrating table as `name`, and its job, if one runs, as `job`. */
  ghost predicate Holds(m: Manifest, name: TableName, job: nat, s: G.Store)
  {
    && m.version == s.version && name in m.tables
    && m.tables[name].segments == s.segments && m.tables[name].tombstones == s.tombstones
    && (forall j :: j in m.jobs && m.jobs[j].source == m.tables[name].tid ==> j == job && s.job.Some?)
    && (s.job.Some? ==> job in m.jobs && Carries(m.jobs[job], m.tables[name].tid, name, s.job.value))
  }

  ghost predicate Carries(j: Job, tid: nat, name: TableName, g: G.Job)
  {
    j.source == tid && j.name == name && j.target.segments == G.Target(g) && j.handled == g.images.Keys
  }

  // ── Table ids ──────────────────────────────────────────────────────────────

  ghost predicate TargetApart(m: Manifest, j: nat)
    requires j in m.jobs
  {
    var tid := m.jobs[j].target.tid;
    && (forall n :: n in m.tables ==> m.tables[n].tid != tid)
    && (forall r :: r in m.retired ==> r.entry.tid != tid)
    && (forall k :: k in m.jobs ==> m.jobs[k].source != tid && (k != j ==> m.jobs[k].target.tid != tid))
  }

  /** Ids are handed out once: a target's is no table's, and no other job's. */
  ghost predicate IdsApart(m: Manifest)
  {
    && (forall n :: n in m.tables ==> m.tables[n].tid < m.nextTableId)
    && (forall r :: r in m.retired ==> r.entry.tid < m.nextTableId)
    && (forall j :: j in m.jobs ==> m.jobs[j].source < m.nextTableId && m.jobs[j].target.tid < m.nextTableId)
    && (forall j :: j in m.jobs ==> TargetApart(m, j))
  }

  lemma SwapKeepsIds(m: Manifest, job: nat, version: nat, nowMs: nat)
    requires IdsApart(m) && ApplyEdit(m, SwapJob(job), version, nowMs).Ok?
    ensures IdsApart(ApplyEdit(m, SwapJob(job), version, nowMs).m)
  {
    var n := ApplyEdit(m, SwapJob(job), version, nowMs).m;
    assert TargetApart(m, job);
    forall j | j in n.jobs ensures TargetApart(n, j) { assert TargetApart(m, j); }
  }

  lemma RevertKeepsIds(m: Manifest, name: TableName, version: nat, nowMs: nat)
    requires IdsApart(m) && ApplyEdit(m, RevertTable(name), version, nowMs).Ok?
    ensures IdsApart(ApplyEdit(m, RevertTable(name), version, nowMs).m)
  {
    var n := ApplyEdit(m, RevertTable(name), version, nowMs).m;
    var i := LastRetired(m.retired, name, Swapped);
    assert m.retired[i] in m.retired;
    forall j | j in n.jobs ensures TargetApart(n, j) { assert TargetApart(m, j); }
  }

  lemma CreateJobKeepsIds(m: Manifest, name: TableName, version: nat, nowMs: nat)
    requires IdsApart(m) && JobIdsFresh(m) && ApplyEdit(m, CreateJob(name), version, nowMs).Ok?
    ensures IdsApart(ApplyEdit(m, CreateJob(name), version, nowMs).m)
  {
    var n := ApplyEdit(m, CreateJob(name), version, nowMs).m;
    forall j | j in n.jobs ensures TargetApart(n, j) {
      if j in m.jobs { assert TargetApart(m, j); }
      forall k | k in n.jobs && k != j ensures n.jobs[k].source != n.jobs[j].target.tid && n.jobs[k].target.tid != n.jobs[j].target.tid {
        if j in m.jobs && k in m.jobs { assert TargetApart(m, j); }
      }
    }
  }

  predicate JobsAlone(e: Edit)
  {
    !e.SwapJob? && !e.CreateJob? && !e.CancelJob? && !e.AdvanceJob? && !e.RevertTable? && !e.UndropTable?
  }

  lemma {:induction false} TableLeavesJobs(m: Manifest, e: Edit, version: nat, nowMs: nat)
    requires ApplyEdit(m, e, version, nowMs).Ok? && JobsAlone(e)
    ensures ApplyEdit(m, e, version, nowMs).m.jobs == m.jobs
  {
  }

  /** Edits of tables that leave the jobs alone. */
  lemma {:induction false} TableKeepsIds(m: Manifest, e: Edit, version: nat, nowMs: nat)
    requires IdsApart(m) && ApplyEdit(m, e, version, nowMs).Ok? && JobsAlone(e)
    ensures IdsApart(ApplyEdit(m, e, version, nowMs).m)
  {
    var n := ApplyEdit(m, e, version, nowMs).m;
    TableLeavesJobs(m, e, version, nowMs);
    forall j | j in n.jobs ensures TargetApart(n, j) { assert TargetApart(m, j); }
  }

  /** Carrying and cancelling. */
  lemma JobKeepsIds(m: Manifest, e: Edit, version: nat, nowMs: nat)
    requires IdsApart(m) && ApplyEdit(m, e, version, nowMs).Ok? && (e.AdvanceJob? || e.CancelJob?)
    ensures IdsApart(ApplyEdit(m, e, version, nowMs).m)
  {
    var n := ApplyEdit(m, e, version, nowMs).m;
    assert n.tables == m.tables && n.retired == m.retired;
    forall j | j in n.jobs ensures TargetApart(n, j) { assert TargetApart(m, j); }
  }

  lemma UndropKeepsIds(m: Manifest, name: TableName, version: nat, nowMs: nat)
    requires IdsApart(m) && ApplyEdit(m, UndropTable(name), version, nowMs).Ok?
    ensures IdsApart(ApplyEdit(m, UndropTable(name), version, nowMs).m)
  {
    var n := ApplyEdit(m, UndropTable(name), version, nowMs).m;
    assert m.retired[LastRetired(m.retired, name, Dropped)] in m.retired;
    forall j | j in n.jobs ensures TargetApart(n, j) { assert TargetApart(m, j); }
  }

  /** Every commit keeps them so. */
  lemma EditKeepsIds(m: Manifest, e: Edit, nowMs: nat)
    requires IdsApart(m) && JobIdsFresh(m) && Apply(m, [e], nowMs).Ok?
    ensures IdsApart(Apply(m, [e], nowMs).m)
  {
    OneEdit(m, e, nowMs);
    var v := m.version + 1;
    match e {
      case SwapJob(job) => SwapKeepsIds(m, job, v, nowMs);
      case RevertTable(name) => RevertKeepsIds(m, name, v, nowMs);
      case CreateJob(name) => CreateJobKeepsIds(m, name, v, nowMs);
      case UndropTable(name) => UndropKeepsIds(m, name, v, nowMs);
      case AdvanceJob(_, _, _, _) => JobKeepsIds(m, e, v, nowMs);
      case CancelJob(_) => JobKeepsIds(m, e, v, nowMs);
      case _ => TableKeepsIds(m, e, v, nowMs);
    }
    var n := ApplyEdit(m, e, v, nowMs).m;
    forall j | j in n.jobs ensures TargetApart(n.(version := v), j) { assert TargetApart(n, j); }
  }

  // ── The steps ──────────────────────────────────────────────────────────────

  /** `CreateJob` on a table without a job. */
  lemma {:induction false} StartIsCommit(
    m: Manifest, name: TableName, job: nat, s: G.Store, t: G.Store, target: set<nat>, rewrite: bool, nowMs: nat)
    requires Holds(m, name, job, s) && IdsApart(m) && JobIdsFresh(m) && G.Start(s, t, target, rewrite)
    ensures var r := Apply(m, [CreateJob(name)], nowMs); r.Ok? && Holds(r.m, name, m.nextJobId, t)
  {
    OneEdit(m, CreateJob(name), nowMs);
  }

  /** The edit of one step of a job: the segments as they are, or the files written for them. */
  ghost function AdvanceEdit(job: nat, rewrite: bool, chosen: set<Segment>, outs: map<nat, set<Segment>>): Edit
  {
    if rewrite then AdvanceJob(job, {}, Ids(chosen), All(outs)) else AdvanceJob(job, Ids(chosen), {}, {})
  }

  ghost function All(outs: map<nat, set<Segment>>): set<Segment>
  {
    set id, y | id in outs && y in outs[id] :: y
  }

  lemma {:induction false} TargetGrows(was: G.Job, now: G.Job, outs: map<nat, set<Segment>>)
    requires now.images == was.images + outs && was.images.Keys !! outs.Keys
    ensures G.Target(now) == G.Target(was) + All(outs)
  {
    forall id, y | id in was.images && y in was.images[id] ensures y in G.Target(now) { assert id in now.images && now.images[id] == was.images[id]; }
    forall id, y | id in outs && y in outs[id] ensures y in G.Target(now) { assert id in now.images && now.images[id] == outs[id]; }
  }

  /** What is chosen is live and was not handled; ids name one segment. */
  lemma {:induction false} ChosenIds(s: G.Store, chosen: set<Segment>)
    requires s.job.Some? && G.Filed(s) && chosen <= G.Gap(s)
    ensures Ids(chosen) !! s.job.value.images.Keys && Ids(chosen) <= Ids(s.segments)
    ensures chosen == set x | x in s.segments && x.id in Ids(chosen)
  {
    forall x | x in chosen ensures x.id !in s.job.value.images && x in s.segments { assert x in G.Gap(s); }
    forall x | x in s.segments && x.id in Ids(chosen) ensures x in chosen {
      var y :| y in chosen && y.id == x.id;
    }
  }

  /** Reused segments are their own images. */
  lemma {:induction false} ReusedImages(chosen: set<Segment>, outs: map<nat, set<Segment>>)
    requires outs.Keys == Ids(chosen) && forall x :: x in chosen ==> x.id in outs && outs[x.id] == {x}
    ensures All(outs) == chosen
  {
    forall x | x in chosen ensures x in All(outs) { assert x in outs[x.id]; }
    forall y | y in All(outs) ensures y in chosen {
      var id :| id in outs && y in outs[id];
      var x :| x in chosen && x.id == id;
    }
  }

  /** The job after the edit. */
  lemma {:induction false} AdvanceApplies(m: Manifest, name: TableName, job: nat, rewrite: bool, chosen: set<Segment>, outs: map<nat, set<Segment>>, nowMs: nat)
    requires name in m.tables && job in m.jobs && m.jobs[job].name == name && m.jobs[job].source == m.tables[name].tid
    requires Ids(chosen) !! m.jobs[job].handled && Ids(chosen) <= Ids(m.tables[name].segments)
    requires !rewrite ==> All(outs) == chosen == set x | x in m.tables[name].segments && x.id in Ids(chosen)
    ensures var r, j := Apply(m, [AdvanceEdit(job, rewrite, chosen, outs)], nowMs), m.jobs[job];
            r == Ok(m.(version := m.version + 1, jobs := m.jobs[job := j.(
              target := j.target.(segments := j.target.segments + All(outs)), handled := j.handled + Ids(chosen))]))
  {
    var e, j := AdvanceEdit(job, rewrite, chosen, outs), m.jobs[job];
    OneEdit(m, e, nowMs);
    var carried := (set x | x in m.tables[name].segments && x.id in e.reused) + e.segments;
    assert carried == All(outs);
    assert e.reused + e.rewritten == Ids(chosen);
    assert j.handled + e.reused + e.rewritten == j.handled + Ids(chosen);
  }

  /** `AdvanceJob`: what the step carries, reused or rewritten, is what the edit records. */
  lemma {:induction false} AdvanceIsCommit(
    m: Manifest, name: TableName, job: nat, s: G.Store, t: G.Store, chosen: set<Segment>, outs: map<nat, set<Segment>>,
    data: map<nat, seq<G.Stored>>, nextId: nat, nowMs: nat)
    requires Holds(m, name, job, s) && G.Filed(s) && G.Advance(s, t, chosen, outs, data, nextId)
    ensures var r := Apply(m, [AdvanceEdit(job, s.job.value.rewrite, chosen, outs)], nowMs); r.Ok? && Holds(r.m, name, job, t)
  {
    ChosenIds(s, chosen);
    if !s.job.value.rewrite { ReusedImages(chosen, outs); }
    AdvanceApplies(m, name, job, s.job.value.rewrite, chosen, outs, nowMs);
    TargetGrows(s.job.value, t.job.value, outs);
    assert t.job.value.images.Keys == s.job.value.images.Keys + Ids(chosen);
  }

  /** `SwapJob`: refused exactly when a segment is not carried; else the table has the target's
      segments under the source's tombstones, as the protocol's swap leaves it. */
  lemma {:induction false} SwapIsCommit(m: Manifest, name: TableName, job: nat, s: G.Store, nowMs: nat)
    requires Holds(m, name, job, s) && IdsApart(m) && s.job.Some?
    ensures var r := Apply(m, [SwapJob(job)], nowMs);
            && (r.Ok? <==> G.Gap(s) == {})
            && (r.Ok? ==> forall t :: G.Swap(s, t) ==> Holds(r.m, name, job, t))
  {
    OneEdit(m, SwapJob(job), nowMs);
    GapIsUnhandled(s);
    var r := Apply(m, [SwapJob(job)], nowMs);
    if r.Ok? {
      assert TargetApart(m, job);
      forall t | G.Swap(s, t) ensures Holds(r.m, name, job, t) { }
    }
  }

  lemma GapIsUnhandled(s: G.Store)
    requires s.job.Some?
    ensures G.Gap(s) == {} <==> Ids(s.segments) <= s.job.value.images.Keys
  {
    if G.Gap(s) == {} {
      forall id | id in Ids(s.segments) ensures id in s.job.value.images {
        var x :| x in s.segments && x.id == id;
        assert x !in G.Gap(s);
      }
    } else {
      var x :| x in G.Gap(s);
      assert x.id in Ids(s.segments);
    }
  }

  /** The last call of a reusing job carries the rest and swaps in one commit, a version earlier than
      the two steps: otherwise the same. */
  lemma {:induction false} LastCallIsCommit(
    m: Manifest, name: TableName, job: nat, s: G.Store, mid: G.Store, t: G.Store, chosen: set<Segment>,
    outs: map<nat, set<Segment>>, nowMs: nat)
    requires Holds(m, name, job, s) && IdsApart(m) && G.Filed(s)
    requires G.Advance(s, mid, chosen, outs, map[], s.nextId) && !s.job.value.rewrite && G.Swap(mid, t)
    ensures var r := Apply(m, [AdvanceEdit(job, false, chosen, outs), SwapJob(job)], nowMs);
            r.Ok? && Holds(r.m, name, job, t.(version := t.version - 1))
  {
    var e := AdvanceEdit(job, false, chosen, outs);
    var v := m.version + 1;
    TwoEdits(m, e, SwapJob(job), nowMs);
    AdvanceIsCommit(m, name, job, s, mid, chosen, outs, map[], s.nextId, nowMs);
    OneEdit(m, e, nowMs);
    var n := ApplyEdit(m, e, v, nowMs).m;
    GapIsUnhandled(mid);
    JobKeepsIds(m, e, v, nowMs);
    assert TargetApart(n, job);
    assert ApplyEdit(n, SwapJob(job), v, nowMs).Ok?;
  }

  lemma {:induction false} CancelIsCommit(m: Manifest, name: TableName, job: nat, s: G.Store, t: G.Store, nowMs: nat)
    requires Holds(m, name, job, s) && G.Step(s, t, G.ACancel)
    ensures var r := Apply(m, [CancelJob(job)], nowMs); r.Ok? && Holds(r.m, name, job, t)
  {
    OneEdit(m, CancelJob(job), nowMs);
  }

  /** Flushes and deletes of a migrating table are the edits they are elsewhere. */
  lemma {:induction false} JobFlushIsCommit(
    m: Manifest, name: TableName, job: nat, s: G.Store, t: G.Store, data: map<nat, seq<G.Stored>>, nextId: nat, nowMs: nat)
    requires Holds(m, name, job, s) && G.FlushCommit(s, t, data, nextId)
    ensures var e := AddSegments(name, set id | id in data :: Segment(id, s.version + 1));
            Apply(m, [e], nowMs).Ok? && Holds(Apply(m, [e], nowMs).m, name, job, t)
  {
    OneEdit(m, AddSegments(name, set id | id in data :: Segment(id, s.version + 1)), nowMs);
  }

  lemma {:induction false} JobDeleteIsCommit(m: Manifest, name: TableName, job: nat, s: G.Store, t: G.Store, pred: nat, nowMs: nat)
    requires Holds(m, name, job, s) && G.Delete(s, t, pred)
    ensures Apply(m, [AddTombstone(name, pred)], nowMs).Ok? && Holds(Apply(m, [AddTombstone(name, pred)], nowMs).m, name, job, t)
  {
    OneEdit(m, AddTombstone(name, pred), nowMs);
  }
}
