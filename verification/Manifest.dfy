/** The manifest and its commits (src/storage/manifest/mod.rs, commit.rs): which segments every
    table, retired entry and migration job names, and what one commit may do to them.

    A segment vector is kept sorted by `(seq, id)` in the source, so its order carries no
    information; here it is a set. */
module Manifest {

  type TableName = string

  datatype Segment = Segment(id: nat, seqNo: nat)

  /** Applies to segments with `seq < this.seqNo`; `pred` names its AND of comparisons. */
  datatype Tombstone = Tombstone(seqNo: nat, pred: nat)

  datatype Table = Table(tid: nat, segments: set<Segment>, tombstones: set<Tombstone>)

  datatype Garbage = Garbage(id: nat, removedAtMs: nat, removedAtVersion: nat)

  datatype Reason = Swapped | Reverted | Dropped

  datatype Retired = Retired(
    name: TableName, entry: Table, reason: Reason, retiredAtMs: nat, version: nat, successors: set<nat>)

  /** A running migration: `handled` are the source segments already carried into `target`. */
  datatype Job = Job(source: nat, name: TableName, target: Table, handled: set<nat>)

  datatype Manifest = Manifest(
    version: nat, nextTableId: nat, tables: map<TableName, Table>, garbage: set<Garbage>,
    nextJobId: nat, jobs: map<nat, Job>, retired: seq<Retired>)

  datatype Edit =
    | CreateTable(name: TableName)
    | AddSegments(name: TableName, segments: set<Segment>)
    | RemoveSegments(name: TableName, ids: set<nat>)
    | AddTombstone(name: TableName, pred: nat)
    | ForgetGarbage(ids: set<nat>)
    | CreateJob(name: TableName)
    | AdvanceJob(job: nat, reused: set<nat>, rewritten: set<nat>, segments: set<Segment>)
    | SwapJob(job: nat)
    | CancelJob(job: nat)
    | RevertTable(name: TableName)
    | DropTable(name: TableName)
    | UndropTable(name: TableName)
    | TruncateTable(name: TableName)
    | ExpireRetired(beforeMs: nat)

  datatype Result = Ok(m: Manifest) | Conflict | JobRunning | NoSuchJob | NothingToRevert | RevertStale | NotDropped

  const Empty := Manifest(0, 1, map[], {}, 1, map[], [])

  function Ids(segments: set<Segment>): (ids: set<nat>)
  {
    set s | s in segments :: s.id
  }

  function GarbageIds(m: Manifest): (ids: set<nat>)
  {
    set g | g in m.garbage :: g.id
  }

  // ── Who names a segment ────────────────────────────────────────────────────

  predicate InTables(m: Manifest, id: nat)
  {
    exists n :: n in m.tables && id in Ids(m.tables[n].segments)
  }

  predicate InRetired(rs: seq<Retired>, id: nat)
  {
    exists i :: 0 <= i < |rs| && id in Ids(rs[i].entry.segments)
  }

  predicate InJobs(m: Manifest, id: nat)
  {
    exists j :: j in m.jobs && id in Ids(m.jobs[j].target.segments)
  }

  /** The reference count GC relies on: any live table, retired entry or job target names `id`. */
  predicate References(m: Manifest, id: nat)
  {
    InTables(m, id) || InRetired(m.retired, id) || InJobs(m, id)
  }

  predicate HasJob(m: Manifest, name: TableName)
    requires name in m.tables
  {
    exists j :: j in m.jobs && m.jobs[j].source == m.tables[name].tid
  }

  /** The last retired entry of `name` with `reason`, or -1. */
  function LastRetired(rs: seq<Retired>, name: TableName, reason: Reason): (i: int)
    ensures -1 <= i < |rs|
    ensures i >= 0 ==> rs[i].name == name && rs[i].reason == reason
    ensures forall k :: i < k < |rs| ==> !(rs[k].name == name && rs[k].reason == reason)
  {
    if rs == [] then -1
    else if rs[|rs| - 1].name == name && rs[|rs| - 1].reason == reason then |rs| - 1
    else LastRetired(rs[..|rs| - 1], name, reason)
  }

  function Without<T>(s: seq<T>, i: nat): (r: seq<T>)
    requires i < |s|
    ensures forall x :: x in s ==> x == s[i] || x in r
    ensures forall x :: x in r ==> x in s
  {
    assert s == s[..i] + [s[i]] + s[i + 1..];
    s[..i] + s[i + 1..]
  }

  function Keep(rs: seq<Retired>, beforeMs: nat): (kept: seq<Retired>)
    ensures forall r :: r in kept <==> r in rs && !(r.retiredAtMs < beforeMs)
  {
    if rs == [] then []
    else (if rs[0].retiredAtMs < beforeMs then [] else [rs[0]]) + Keep(rs[1..], beforeMs)
  }

  function ExpiredSegments(rs: seq<Retired>, beforeMs: nat): set<Segment>
  {
    set r, s | r in rs && r.retiredAtMs < beforeMs && s in r.entry.segments :: s
  }

  // ── One edit ───────────────────────────────────────────────────────────────

  /** Moves each segment to garbage unless something still names it or it is already there. */
  function Release(m: Manifest, segments: set<Segment>, version: nat, nowMs: nat): (r: Manifest)
  {
    m.(garbage := m.garbage +
      set s | s in segments && !References(m, s.id) && s.id !in GarbageIds(m) :: Garbage(s.id, nowMs, version))
  }

  function WithTable(m: Manifest, name: TableName, t: Table): Manifest
  {
    m.(tables := m.tables[name := t])
  }

  function ApplyEdit(m: Manifest, e: Edit, version: nat, nowMs: nat): Result
  {
    match e
    case CreateTable(name) =>
      if name in m.tables then Conflict
      else Ok(WithTable(m, name, Table(m.nextTableId, {}, {})).(nextTableId := m.nextTableId + 1))
    case AddSegments(name, segments) =>
      if name !in m.tables then Conflict
      else Ok(WithTable(m, name, m.tables[name].(segments := m.tables[name].segments + segments)))
    case RemoveSegments(name, ids) => ApplyRemove(m, name, ids, version, nowMs)
    case AddTombstone(name, pred) =>
      if name !in m.tables then Conflict
      else Ok(WithTable(m, name,
        m.tables[name].(tombstones := m.tables[name].tombstones + {Tombstone(m.version + 1, pred)})))
    case ForgetGarbage(ids) => Ok(m.(garbage := set g | g in m.garbage && g.id !in ids))
    case CreateJob(name) => ApplyCreateJob(m, name)
    case AdvanceJob(job, reused, rewritten, segments) => ApplyAdvance(m, job, reused, rewritten, segments)
    case SwapJob(job) => ApplySwap(m, job, version, nowMs)
    case CancelJob(job) =>
      if job !in m.jobs then NoSuchJob
      else Ok(Release(m.(jobs := m.jobs - {job}), m.jobs[job].target.segments, version, nowMs))
    case RevertTable(name) => ApplyRevert(m, name, version, nowMs)
    case DropTable(name) =>
      if name !in m.tables then Conflict
      else if HasJob(m, name) then JobRunning
      else Ok(m.(tables := m.tables - {name},
                 retired := m.retired + [Retired(name, m.tables[name], Dropped, nowMs, version, {})]))
    case UndropTable(name) =>
      var i := LastRetired(m.retired, name, Dropped);
      if i < 0 then NotDropped
      else if name in m.tables then Conflict
      else Ok(WithTable(m, name, m.retired[i].entry).(retired := Without(m.retired, i)))
    case TruncateTable(name) =>
      if name !in m.tables then Conflict
      else if HasJob(m, name) then JobRunning
      else
        var t := m.tables[name];
        Ok(Release(WithTable(m, name, t.(segments := {}, tombstones := {})), t.segments, version, nowMs))
    case ExpireRetired(beforeMs) =>
      Ok(Release(m.(retired := Keep(m.retired, beforeMs)), ExpiredSegments(m.retired, beforeMs), version, nowMs))
  }

  function ApplyRemove(m: Manifest, name: TableName, ids: set<nat>, version: nat, nowMs: nat): Result
  {
    if name !in m.tables then Conflict
    else if HasJob(m, name) then JobRunning
    else if !(ids <= Ids(m.tables[name].segments)) then Conflict
    else
      var t := m.tables[name];
      var gone := set s | s in t.segments && s.id in ids;
      Ok(Release(WithTable(m, name, t.(segments := t.segments - gone)), gone, version, nowMs))
  }

  function ApplyCreateJob(m: Manifest, name: TableName): Result
  {
    if name !in m.tables then Conflict
    else if HasJob(m, name) then JobRunning
    else
      var job := Job(m.tables[name].tid, name, Table(m.nextTableId, {}, {}), {});
      Ok(m.(jobs := m.jobs[m.nextJobId := job], nextJobId := m.nextJobId + 1, nextTableId := m.nextTableId + 1))
  }

  function ApplyAdvance(
    m: Manifest, job: nat, reused: set<nat>, rewritten: set<nat>, segments: set<Segment>): Result
  {
    if job !in m.jobs then NoSuchJob
    else
      var j := m.jobs[job];
      if j.name !in m.tables || m.tables[j.name].tid != j.source then Conflict
      else
        var source := m.tables[j.name].segments;
        if !(reused + rewritten <= Ids(source) - j.handled) then Conflict
        else
          var carried := (set s | s in source && s.id in reused) + segments;
          Ok(m.(jobs := m.jobs[job := j.(
            target := j.target.(segments := j.target.segments + carried),
            handled := j.handled + reused + rewritten)]))
  }

  function ApplySwap(m: Manifest, job: nat, version: nat, nowMs: nat): Result
  {
    if job !in m.jobs then NoSuchJob
    else
      var j := m.jobs[job];
      if j.name !in m.tables || m.tables[j.name].tid != j.source then Conflict
      else
        var source := m.tables[j.name];
        if !(Ids(source.segments) <= j.handled) then Conflict
        else
          Ok(m.(tables := m.tables[j.name := j.target.(tombstones := source.tombstones)],
                jobs := m.jobs - {job},
                retired := m.retired + [Retired(j.name, source, Swapped, nowMs, version, Ids(j.target.segments))]))
  }

  function ApplyRevert(m: Manifest, name: TableName, version: nat, nowMs: nat): Result
  {
    var i := LastRetired(m.retired, name, Swapped);
    if i < 0 || name !in m.tables then NothingToRevert
    else if HasJob(m, name) then JobRunning
    else
      var r, cur := m.retired[i], m.tables[name];
      if !(r.successors <= Ids(cur.segments)) then RevertStale
      else
        var since := set s | s in cur.segments && s.id !in r.successors;
        var later := set t | t in cur.tombstones && t.seqNo > r.version;
        var restored := r.entry.(segments := r.entry.segments + since, tombstones := r.entry.tombstones + later);
        Ok(m.(tables := m.tables[name := restored],
              retired := Without(m.retired, i) + [Retired(name, cur, Reverted, nowMs, version, {})]))
  }

  /** `Commit::apply`: every edit sees the base version; the version moves by one at the end. */
  function Apply(m: Manifest, edits: seq<Edit>, nowMs: nat): Result
  {
    var r := ApplyEdits(m, edits, m.version + 1, nowMs);
    if r.Ok? then Ok(r.m.(version := m.version + 1)) else r
  }

  function ApplyEdits(m: Manifest, edits: seq<Edit>, version: nat, nowMs: nat): Result
    decreases |edits|
  {
    if edits == [] then Ok(m)
    else
      var r := ApplyEdit(m, edits[0], version, nowMs);
      if r.Ok? then ApplyEdits(r.m, edits[1..], version, nowMs) else r
  }

  // ── What every edit keeps ──────────────────────────────────────────────────

  /** The new segments an edit introduces: a flush's, a compaction's or a migration's outputs. */
  function Added(e: Edit): set<nat>
  {
    match e
    case AddSegments(_, segments) => Ids(segments)
    case AdvanceJob(_, _, _, segments) => Ids(segments)
    case _ => {}
  }

  function AddedAll(edits: seq<Edit>): set<nat>
  {
    if edits == [] then {} else Added(edits[0]) + AddedAll(edits[1..])
  }

  function Forgotten(e: Edit): set<nat>
  {
    if e.ForgetGarbage? then e.ids else {}
  }

  function ForgottenAll(edits: seq<Edit>): set<nat>
  {
    if edits == [] then {} else Forgotten(edits[0]) + ForgottenAll(edits[1..])
  }

  /** Nothing named is garbage: the state every commit must preserve. */
  ghost predicate Wf(m: Manifest)
  {
    forall id :: id in GarbageIds(m) ==> !References(m, id)
  }

  /** How a manifest may change, when the new segment ids are `added`, the garbage ids dropped are
      `forgot` and the commit's version is `version`: nothing is named again once it went, and
      whatever goes is garbage stamped with `version`. */
  ghost predicate Evolves(m: Manifest, n: Manifest, added: set<nat>, forgot: set<nat>, version: nat)
  {
    && (forall id :: References(n, id) ==> References(m, id) || id in added)
    && (forall id :: References(m, id) && !References(n, id) ==> id in GarbageIds(n) || id in forgot)
    && (forall g :: g in m.garbage ==> g in n.garbage || g.id in forgot)
    && (forall g :: g in n.garbage && g !in m.garbage ==>
          g.removedAtVersion == version && (References(m, g.id) || g.id in added))
  }

  /** An edit that only reshuffles names: `lost` are the segments it then releases. */
  lemma ReleaseEvolves(m: Manifest, mid: Manifest, lost: set<Segment>, version: nat, nowMs: nat)
    requires Wf(m) && mid.garbage == m.garbage
    requires forall id :: References(mid, id) ==> References(m, id)
    requires forall id :: References(m, id) && !References(mid, id) ==> id in Ids(lost)
    requires forall id :: id in Ids(lost) ==> References(m, id)
    ensures Wf(Release(mid, lost, version, nowMs))
    ensures Evolves(m, Release(mid, lost, version, nowMs), {}, {}, version)
  {
    var n := Release(mid, lost, version, nowMs);
    ReleaseKeepsNames(mid, lost, version, nowMs);
    forall id | References(m, id) && !References(n, id)
      ensures id in GarbageIds(n)
    {
      var s :| s in lost && s.id == id;
      if id !in GarbageIds(mid) {
        assert Garbage(s.id, nowMs, version) in n.garbage;
      }
    }
  }

  lemma ReleaseKeepsNames(m: Manifest, segments: set<Segment>, version: nat, nowMs: nat)
    ensures forall id :: References(Release(m, segments, version, nowMs), id) <==> References(m, id)
  {
    var n := Release(m, segments, version, nowMs);
    forall id ensures References(n, id) <==> References(m, id) {
      assert InTables(n, id) <==> InTables(m, id);
      assert InJobs(n, id) <==> InJobs(m, id);
    }
  }

  lemma TableUpdateNames(m: Manifest, n: Manifest, name: TableName, id: nat)
    requires name in m.tables && name in n.tables && n.tables == m.tables[name := n.tables[name]]
    requires n.jobs == m.jobs && n.retired == m.retired
    ensures References(n, id) ==> References(m, id) || id in Ids(n.tables[name].segments)
    ensures References(m, id) ==> References(n, id) || id in Ids(m.tables[name].segments)
    ensures id in Ids(n.tables[name].segments) ==> References(n, id)
    ensures id in Ids(m.tables[name].segments) ==> References(m, id)
  {
    if InTables(n, id) {
      var k :| k in n.tables && id in Ids(n.tables[k].segments);
      if k != name { assert k in m.tables && id in Ids(m.tables[k].segments); }
    }
    if InTables(m, id) {
      var k :| k in m.tables && id in Ids(m.tables[k].segments);
      if k != name { assert k in n.tables && id in Ids(n.tables[k].segments); }
    }
    assert InJobs(n, id) <==> InJobs(m, id);
  }

  lemma CreateEvolves(m: Manifest, name: TableName, version: nat, nowMs: nat)
    requires Wf(m) && name !in m.tables
    ensures var n := ApplyEdit(m, CreateTable(name), version, nowMs).m; Wf(n) && Evolves(m, n, {}, {}, version)
  {
    var n := ApplyEdit(m, CreateTable(name), version, nowMs).m;
    forall id ensures References(n, id) <==> References(m, id) {
      if InTables(n, id) {
        var k :| k in n.tables && id in Ids(n.tables[k].segments);
        assert k != name && k in m.tables;
      }
      if InTables(m, id) {
        var k :| k in m.tables && id in Ids(m.tables[k].segments);
        assert k in n.tables && id in Ids(n.tables[k].segments);
      }
      assert InJobs(n, id) <==> InJobs(m, id);
    }
  }

  lemma AddEvolves(m: Manifest, name: TableName, segments: set<Segment>, version: nat, nowMs: nat)
    requires Wf(m) && name in m.tables && Ids(segments) !! GarbageIds(m)
    ensures var n := ApplyEdit(m, AddSegments(name, segments), version, nowMs).m;
            Wf(n) && Evolves(m, n, Ids(segments), {}, version)
  {
    var n := ApplyEdit(m, AddSegments(name, segments), version, nowMs).m;
    forall id
      ensures References(n, id) ==> References(m, id) || id in Ids(segments)
      ensures References(m, id) ==> References(n, id)
    {
      TableUpdateNames(m, n, name, id);
      assert n.tables[name].segments == m.tables[name].segments + segments;
      assert Ids(n.tables[name].segments) == Ids(m.tables[name].segments) + Ids(segments);
    }
  }

  lemma SameSegmentsEvolves(m: Manifest, n: Manifest, name: TableName, version: nat)
    requires Wf(m) && name in m.tables && name in n.tables && n.tables == m.tables[name := n.tables[name]]
    requires n.tables[name].segments == m.tables[name].segments
    requires n.jobs == m.jobs && n.retired == m.retired && n.garbage == m.garbage
    ensures Wf(n) && Evolves(m, n, {}, {}, version)
  {
    forall id ensures References(n, id) <==> References(m, id) {
      TableUpdateNames(m, n, name, id);
    }
  }

  lemma RemoveEvolves(m: Manifest, name: TableName, gone: set<Segment>, t: Table, version: nat, nowMs: nat)
    requires Wf(m) && name in m.tables && gone <= m.tables[name].segments
    requires t.segments == m.tables[name].segments - gone
    ensures var n := Release(WithTable(m, name, t), gone, version, nowMs); Wf(n) && Evolves(m, n, {}, {}, version)
  {
    var mid := WithTable(m, name, t);
    forall id
      ensures References(mid, id) ==> References(m, id)
      ensures References(m, id) && !References(mid, id) ==> id in Ids(gone)
      ensures id in Ids(gone) ==> References(m, id)
    {
      TableUpdateNames(m, mid, name, id);
      if id in Ids(m.tables[name].segments) && id !in Ids(gone) {
        var s :| s in m.tables[name].segments && s.id == id;
        assert s in t.segments;
      }
    }
    ReleaseEvolves(m, mid, gone, version, nowMs);
  }

  lemma CreateJobEvolves(m: Manifest, name: TableName, version: nat)
    requires Wf(m) && ApplyCreateJob(m, name).Ok? && m.nextJobId !in m.jobs
    ensures Wf(ApplyCreateJob(m, name).m) && Evolves(m, ApplyCreateJob(m, name).m, {}, {}, version)
  {
    var n := ApplyCreateJob(m, name).m;
    forall id ensures References(n, id) <==> References(m, id) {
      assert InTables(n, id) <==> InTables(m, id);
      if InJobs(n, id) {
        var j :| j in n.jobs && id in Ids(n.jobs[j].target.segments);
        assert j != m.nextJobId && j in m.jobs;
      }
      if InJobs(m, id) {
        var j :| j in m.jobs && id in Ids(m.jobs[j].target.segments);
        assert j in n.jobs && n.jobs[j] == m.jobs[j];
      }
    }
  }

  lemma AdvanceEvolves(
    m: Manifest, job: nat, reused: set<nat>, rewritten: set<nat>, segments: set<Segment>, version: nat)
    requires Wf(m) && ApplyAdvance(m, job, reused, rewritten, segments).Ok? && Ids(segments) !! GarbageIds(m)
    ensures var n := ApplyAdvance(m, job, reused, rewritten, segments).m;
            Wf(n) && Evolves(m, n, Ids(segments), {}, version)
  {
    var n := ApplyAdvance(m, job, reused, rewritten, segments).m;
    var source := m.jobs[job].name;
    forall id
      ensures References(n, id) ==> References(m, id) || id in Ids(segments)
      ensures References(m, id) ==> References(n, id)
    {
      assert InTables(n, id) <==> InTables(m, id);
      if InJobs(n, id) {
        var j :| j in n.jobs && id in Ids(n.jobs[j].target.segments);
        if j == job {
          var s :| s in n.jobs[j].target.segments && s.id == id;
          if s in m.tables[source].segments {
            assert InTables(m, id);
          } else if s in segments {
          } else {
            assert id in Ids(m.jobs[job].target.segments);
            assert InJobs(m, id);
          }
        } else {
          assert InJobs(m, id);
        }
      }
      if InJobs(m, id) {
        var j :| j in m.jobs && id in Ids(m.jobs[j].target.segments);
        var s :| s in m.jobs[j].target.segments && s.id == id;
        assert j in n.jobs && s in n.jobs[j].target.segments;
        assert InJobs(n, id);
      }
    }
  }

  lemma SwapEvolves(m: Manifest, job: nat, version: nat, nowMs: nat)
    requires Wf(m) && ApplySwap(m, job, version, nowMs).Ok?
    ensures var n := ApplySwap(m, job, version, nowMs).m; Wf(n) && Evolves(m, n, {}, {}, version)
  {
    var n := ApplySwap(m, job, version, nowMs).m;
    var j := m.jobs[job];
    var last := |m.retired|;
    assert n.retired[last].entry == m.tables[j.name];
    forall id ensures References(n, id) <==> References(m, id) {
      SwapKeepsName(m, n, job, id);
    }
  }

  lemma SwapKeepsName(m: Manifest, n: Manifest, job: nat, id: nat)
    requires job in m.jobs && m.jobs[job].name in m.tables && |n.retired| == |m.retired| + 1
    requires n.jobs == m.jobs - {job} && n.retired[..|m.retired|] == m.retired
    requires n.retired[|m.retired|].entry.segments == m.tables[m.jobs[job].name].segments
    requires m.jobs[job].name in n.tables && n.tables == m.tables[m.jobs[job].name := n.tables[m.jobs[job].name]]
    requires n.tables[m.jobs[job].name].segments == m.jobs[job].target.segments
    ensures References(n, id) <==> References(m, id)
  {
    var name, last := m.jobs[job].name, |m.retired|;
    if InTables(n, id) {
      var k :| k in n.tables && id in Ids(n.tables[k].segments);
      if k == name { assert InJobs(m, id); } else { assert InTables(m, id); }
    }
    if InTables(m, id) {
      var k :| k in m.tables && id in Ids(m.tables[k].segments);
      if k == name { assert id in Ids(n.retired[last].entry.segments); } else { assert n.tables[k] == m.tables[k]; }
    }
    if InJobs(m, id) {
      var k :| k in m.jobs && id in Ids(m.jobs[k].target.segments);
      if k == job { assert InTables(n, id); } else { assert k in n.jobs && n.jobs[k] == m.jobs[k]; }
    }
    if InJobs(n, id) {
      var k :| k in n.jobs && id in Ids(n.jobs[k].target.segments);
      assert k in m.jobs;
    }
    RetiredPrefix(m.retired, n.retired, id);
    if InRetired(n.retired, id) && !InRetired(m.retired, id) {
      assert InTables(m, id);
    }
  }

  lemma RetiredPrefix(a: seq<Retired>, b: seq<Retired>, id: nat)
    requires |b| == |a| + 1 && b[..|a|] == a
    ensures InRetired(b, id) <==> InRetired(a, id) || id in Ids(b[|a|].entry.segments)
  {
    assert forall i :: 0 <= i < |a| ==> b[i] == a[i];
  }

  lemma RetiredWithout(a: seq<Retired>, i: nat, id: nat)
    requires i < |a|
    ensures InRetired(a, id) <==> InRetired(Without(a, i), id) || id in Ids(a[i].entry.segments)
  {
    var b := Without(a, i);
    if InRetired(a, id) {
      var k :| 0 <= k < |a| && id in Ids(a[k].entry.segments);
      if k != i { assert b[if k < i then k else k - 1] == a[k]; }
    }
    if InRetired(b, id) {
      var k :| 0 <= k < |b| && id in Ids(b[k].entry.segments);
      assert a[if k < i then k else k + 1] == b[k];
    }
  }

  lemma CancelEvolves(m: Manifest, job: nat, version: nat, nowMs: nat)
    requires Wf(m) && job in m.jobs
    ensures var n := ApplyEdit(m, CancelJob(job), version, nowMs).m; Wf(n) && Evolves(m, n, {}, {}, version)
  {
    var mid := m.(jobs := m.jobs - {job});
    var lost := m.jobs[job].target.segments;
    forall id
      ensures References(mid, id) ==> References(m, id)
      ensures References(m, id) && !References(mid, id) ==> id in Ids(lost)
      ensures id in Ids(lost) ==> References(m, id)
    {
      assert InTables(mid, id) <==> InTables(m, id);
      if InJobs(m, id) {
        var k :| k in m.jobs && id in Ids(m.jobs[k].target.segments);
        if k != job { assert k in mid.jobs && mid.jobs[k] == m.jobs[k]; }
      }
      if InJobs(mid, id) {
        var k :| k in mid.jobs && id in Ids(mid.jobs[k].target.segments);
        assert k in m.jobs;
      }
      if id in Ids(lost) { assert InJobs(m, id); }
    }
    ReleaseEvolves(m, mid, lost, version, nowMs);
  }

  lemma RevertEvolves(m: Manifest, name: TableName, version: nat, nowMs: nat)
    requires Wf(m) && ApplyRevert(m, name, version, nowMs).Ok?
    ensures var n := ApplyRevert(m, name, version, nowMs).m; Wf(n) && Evolves(m, n, {}, {}, version)
  {
    var n := ApplyRevert(m, name, version, nowMs).m;
    var i := LastRetired(m.retired, name, Swapped);
    var rest := Without(m.retired, i);
    var r, cur := m.retired[i], m.tables[name];
    assert n.retired[..|rest|] == rest && n.retired[|rest|].entry == cur;
    assert r.entry.segments <= n.tables[name].segments <= r.entry.segments + cur.segments;
    forall id ensures References(n, id) <==> References(m, id) {
      RetiredWithout(m.retired, i, id);
      RetiredPrefix(rest, n.retired, id);
      assert InJobs(n, id) <==> InJobs(m, id);
      if InTables(n, id) {
        var k :| k in n.tables && id in Ids(n.tables[k].segments);
        if k == name {
          var s :| s in n.tables[name].segments && s.id == id;
          assert id in Ids(r.entry.segments) || id in Ids(cur.segments);
          assert InTables(m, id) || InRetired(m.retired, id);
        } else { assert InTables(m, id); }
      }
      if InTables(m, id) {
        var k :| k in m.tables && id in Ids(m.tables[k].segments);
        if k != name { assert n.tables[k] == m.tables[k]; }
      }
      if id in Ids(cur.segments) { assert InTables(m, id); }
      if id in Ids(r.entry.segments) {
        var s :| s in r.entry.segments && s.id == id;
        assert s in n.tables[name].segments;
        assert InTables(n, id);
      }
    }
  }

  lemma DropEvolves(m: Manifest, name: TableName, version: nat, nowMs: nat)
    requires Wf(m) && ApplyEdit(m, DropTable(name), version, nowMs).Ok?
    ensures var n := ApplyEdit(m, DropTable(name), version, nowMs).m; Wf(n) && Evolves(m, n, {}, {}, version)
  {
    var n := ApplyEdit(m, DropTable(name), version, nowMs).m;
    assert n.retired[..|m.retired|] == m.retired;
    forall id ensures References(n, id) <==> References(m, id) {
      RetiredPrefix(m.retired, n.retired, id);
      assert InJobs(n, id) <==> InJobs(m, id);
      if InTables(m, id) {
        var k :| k in m.tables && id in Ids(m.tables[k].segments);
        if k != name { assert k in n.tables && n.tables[k] == m.tables[k]; }
      }
      if InTables(n, id) {
        var k :| k in n.tables && id in Ids(n.tables[k].segments);
        assert k in m.tables;
      }
      if id in Ids(m.tables[name].segments) { assert InTables(m, id); }
    }
  }

  lemma UndropEvolves(m: Manifest, name: TableName, version: nat, nowMs: nat)
    requires Wf(m) && ApplyEdit(m, UndropTable(name), version, nowMs).Ok?
    ensures var n := ApplyEdit(m, UndropTable(name), version, nowMs).m; Wf(n) && Evolves(m, n, {}, {}, version)
  {
    var n := ApplyEdit(m, UndropTable(name), version, nowMs).m;
    var i := LastRetired(m.retired, name, Dropped);
    forall id ensures References(n, id) <==> References(m, id) {
      RetiredWithout(m.retired, i, id);
      assert InJobs(n, id) <==> InJobs(m, id);
      if InTables(m, id) {
        var k :| k in m.tables && id in Ids(m.tables[k].segments);
        assert k in n.tables && n.tables[k] == m.tables[k];
      }
      if InTables(n, id) {
        var k :| k in n.tables && id in Ids(n.tables[k].segments);
        if k != name { assert k in m.tables; } else { assert id in Ids(m.retired[i].entry.segments); }
      }
      if id in Ids(m.retired[i].entry.segments) { assert id in Ids(n.tables[name].segments); }
    }
  }

  lemma ExpireEvolves(m: Manifest, beforeMs: nat, version: nat, nowMs: nat)
    requires Wf(m)
    ensures var n := ApplyEdit(m, ExpireRetired(beforeMs), version, nowMs).m; Wf(n) && Evolves(m, n, {}, {}, version)
  {
    var mid := m.(retired := Keep(m.retired, beforeMs));
    var lost := ExpiredSegments(m.retired, beforeMs);
    forall id
      ensures References(mid, id) ==> References(m, id)
      ensures References(m, id) && !References(mid, id) ==> id in Ids(lost)
      ensures id in Ids(lost) ==> References(m, id)
    {
      assert InTables(mid, id) <==> InTables(m, id);
      assert InJobs(mid, id) <==> InJobs(m, id);
      if InRetired(m.retired, id) {
        var k :| 0 <= k < |m.retired| && id in Ids(m.retired[k].entry.segments);
        var s :| s in m.retired[k].entry.segments && s.id == id;
        if m.retired[k].retiredAtMs < beforeMs {
          assert s in lost;
        } else {
          assert m.retired[k] in mid.retired;
        }
      }
      if InRetired(mid.retired, id) {
        var k :| 0 <= k < |mid.retired| && id in Ids(mid.retired[k].entry.segments);
        assert mid.retired[k] in m.retired;
      }
      if id in Ids(lost) {
        var s :| s in lost && s.id == id;
        var r :| r in m.retired && s in r.entry.segments;
        var k :| 0 <= k < |m.retired| && m.retired[k] == r;
        assert id in Ids(m.retired[k].entry.segments);
      }
    }
    ReleaseEvolves(m, mid, lost, version, nowMs);
  }

  /** Job ids are never reused, so a fresh one is free. */
  ghost predicate JobIdsFresh(m: Manifest)
  {
    forall j :: j in m.jobs ==> j < m.nextJobId
  }

  /** Every edit keeps the manifest well formed and evolves it. */
  lemma EditEvolves(m: Manifest, e: Edit, version: nat, nowMs: nat)
    requires Wf(m) && JobIdsFresh(m) && ApplyEdit(m, e, version, nowMs).Ok? && Added(e) !! GarbageIds(m)
    ensures var n := ApplyEdit(m, e, version, nowMs).m;
            Wf(n) && JobIdsFresh(n) && Evolves(m, n, Added(e), Forgotten(e), version)
  {
    var n := ApplyEdit(m, e, version, nowMs).m;
    match e {
      case CreateTable(name) => CreateEvolves(m, name, version, nowMs);
      case AddSegments(name, segments) => AddEvolves(m, name, segments, version, nowMs);
      case RemoveSegments(name, ids) =>
        var t := m.tables[name];
        var gone := set s | s in t.segments && s.id in ids;
        RemoveEvolves(m, name, gone, t.(segments := t.segments - gone), version, nowMs);
      case AddTombstone(name, _) => SameSegmentsEvolves(m, n, name, version);
      case ForgetGarbage(_) =>
        forall id ensures References(n, id) <==> References(m, id) {
          assert InTables(n, id) <==> InTables(m, id);
          assert InJobs(n, id) <==> InJobs(m, id);
        }
      case CreateJob(name) => CreateJobEvolves(m, name, version);
      case AdvanceJob(job, reused, rewritten, segments) =>
        AdvanceEvolves(m, job, reused, rewritten, segments, version);
      case SwapJob(job) => SwapEvolves(m, job, version, nowMs);
      case CancelJob(job) => CancelEvolves(m, job, version, nowMs);
      case RevertTable(name) => RevertEvolves(m, name, version, nowMs);
      case DropTable(name) => DropEvolves(m, name, version, nowMs);
      case UndropTable(name) => UndropEvolves(m, name, version, nowMs);
      case TruncateTable(name) =>
        var t := m.tables[name];
        RemoveEvolves(m, name, t.segments, t.(segments := {}, tombstones := {}), version, nowMs);
      case ExpireRetired(beforeMs) => ExpireEvolves(m, beforeMs, version, nowMs);
    }
  }

  lemma EvolvesCompose(
    a: Manifest, b: Manifest, c: Manifest, add1: set<nat>, forgot1: set<nat>, add2: set<nat>, forgot2: set<nat>,
    version: nat)
    requires Evolves(a, b, add1, forgot1, version) && Evolves(b, c, add2, forgot2, version)
    ensures Evolves(a, c, add1 + add2, forgot1 + forgot2, version)
  {
    forall id | References(a, id) && !References(c, id)
      ensures id in GarbageIds(c) || id in forgot1 + forgot2
    {
      if !References(b, id) && id !in forgot1 {
        var g :| g in b.garbage && g.id == id;
        assert g in c.garbage || id in forgot2;
      }
    }
  }

  lemma FreshStaysFresh(m: Manifest, n: Manifest, added: set<nat>, forgot: set<nat>, version: nat, id: nat)
    requires Evolves(m, n, added, forgot, version)
    requires id !in GarbageIds(m) && !References(m, id) && id !in added
    ensures id !in GarbageIds(n) && !References(n, id)
  {
    forall g | g in n.garbage ensures g.id != id {
      if g in m.garbage { assert g.id in GarbageIds(m); }
    }
  }

  /** A whole commit evolves the manifest, provided its new ids were never garbage. */
  lemma {:induction false} EditsEvolve(m: Manifest, edits: seq<Edit>, version: nat, nowMs: nat)
    requires Wf(m) && JobIdsFresh(m) && ApplyEdits(m, edits, version, nowMs).Ok?
    requires forall id :: id in AddedAll(edits) ==> id !in GarbageIds(m) && !References(m, id)
    requires Distinct(edits)
    ensures var n := ApplyEdits(m, edits, version, nowMs).m;
            Wf(n) && JobIdsFresh(n) && Evolves(m, n, AddedAll(edits), ForgottenAll(edits), version)
    decreases |edits|
  {
    if edits == [] {
    } else {
      var mid := ApplyEdit(m, edits[0], version, nowMs).m;
      EditEvolves(m, edits[0], version, nowMs);
      forall id | id in AddedAll(edits[1..])
        ensures id !in GarbageIds(mid) && !References(mid, id)
      {
        FreshStaysFresh(m, mid, Added(edits[0]), Forgotten(edits[0]), version, id);
      }
      EditsEvolve(mid, edits[1..], version, nowMs);
      var n := ApplyEdits(mid, edits[1..], version, nowMs).m;
      EvolvesCompose(m, mid, n, Added(edits[0]), Forgotten(edits[0]), AddedAll(edits[1..]), ForgottenAll(edits[1..]), version);
    }
  }

  /** No new id is introduced twice in one commit. */
  predicate Distinct(edits: seq<Edit>)
  {
    edits == [] || (Added(edits[0]) !! AddedAll(edits[1..]) && Distinct(edits[1..]))
  }

  lemma SingleEdit(e: Edit)
    ensures AddedAll([e]) == Added(e) && ForgottenAll([e]) == Forgotten(e) && Distinct([e])
  {
    assert [e][1..] == [];
  }
}
