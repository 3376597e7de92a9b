/** The commits of the rows protocol are commits of the manifest: each step that changes the tables
    publishes what `Commit::apply` makes of the edits the source hands it (src/storage/flush.rs,
    mod.rs, compact.rs, manifest/commit.rs). So the rows protocol and the garbage-collection protocol
    run over the same versions. */
module Commits {
  import opened Manifest
  import R = RowsProtocol

  /** The manifest holds the store's version, segments and tombstones. */
  ghost predicate Mirrors(m: Manifest, s: R.Store)
  {
    && m.version == s.version && m.tables.Keys == s.tables.Keys
    && forall n :: n in m.tables ==> SameTable(m.tables[n], s.tables[n])
  }

  predicate SameTable(a: Table, b: Table)
  {
    a.segments == b.segments && a.tombstones == b.tombstones
  }

  /** Applying the edits gives the manifest of the next state. */
  ghost predicate Publishes(m: Manifest, edits: seq<Edit>, nowMs: nat, t: R.Store)
  {
    var r := Apply(m, edits, nowMs);
    r.Ok? && Mirrors(r.m, t)
  }

  /** What `Apply` does with one edit, and with two. */
  function Then(r: Result, version: nat): Result
  {
    if r.Ok? then Ok(r.m.(version := version)) else r
  }

  lemma OneEdit(m: Manifest, e: Edit, nowMs: nat)
    ensures Apply(m, [e], nowMs) == Then(ApplyEdit(m, e, m.version + 1, nowMs), m.version + 1)
  {
    var r := ApplyEdit(m, e, m.version + 1, nowMs);
    assert [e][1..] == [];
    assert ApplyEdits(m, [e], m.version + 1, nowMs) == if r.Ok? then ApplyEdits(r.m, [], m.version + 1, nowMs) else r;
  }

  lemma TwoEdits(m: Manifest, e: Edit, f: Edit, nowMs: nat)
    ensures var r := ApplyEdit(m, e, m.version + 1, nowMs);
            Apply(m, [e, f], nowMs) == if r.Ok? then Then(ApplyEdit(r.m, f, m.version + 1, nowMs), m.version + 1) else r
  {
    var v, r := m.version + 1, ApplyEdit(m, e, m.version + 1, nowMs);
    assert [e, f][1..] == [f] && [f][1..] == [];
    assert ApplyEdits(m, [e, f], v, nowMs) == if r.Ok? then ApplyEdits(r.m, [f], v, nowMs) else r;
    if r.Ok? {
      var q := ApplyEdit(r.m, f, v, nowMs);
      assert ApplyEdits(r.m, [f], v, nowMs) == if q.Ok? then ApplyEdits(q.m, [], v, nowMs) else q;
    }
  }

  lemma CreateIsCommit(m: Manifest, s: R.Store, t: R.Store, name: TableName, nowMs: nat)
    requires Mirrors(m, s) && R.Create(s, t, name)
    ensures Publishes(m, [CreateTable(name)], nowMs, t)
  {
    OneEdit(m, CreateTable(name), nowMs);
  }

  /** A delete's commit is one `AddTombstone`, stamped with the version it becomes. */
  lemma DeleteIsCommit(m: Manifest, s: R.Store, t: R.Store, d: nat, nowMs: nat)
    requires Mirrors(m, s) && R.DeleteCommit(s, t, d)
    ensures Publishes(m, [AddTombstone(s.deletes[d].name, s.deletes[d].pred)], nowMs, t)
  {
    OneEdit(m, AddTombstone(s.deletes[d].name, s.deletes[d].pred), nowMs);
  }

  // ── Flush: one `AddSegments` for each table ────────────────────────────────

  predicate DistinctTables(names: seq<TableName>)
  {
    forall i, j :: 0 <= i < j < |names| ==> names[i] != names[j]
  }

  function FlushEdits(names: seq<TableName>, outs: map<TableName, set<nat>>, version: nat): seq<Edit>
    requires forall i :: 0 <= i < |names| ==> names[i] in outs
  {
    if names == [] then []
    else [AddSegments(names[0], R.Stamp(outs[names[0]], version))] + FlushEdits(names[1..], outs, version)
  }

  /** `n` is `m` with the named tables' new segments added, and nothing else changed. */
  ghost predicate Grown(m: Manifest, n: Manifest, names: seq<TableName>, outs: map<TableName, set<nat>>, version: nat)
    requires forall i :: 0 <= i < |names| ==> names[i] in outs
  {
    && n == m.(tables := n.tables) && n.tables.Keys == m.tables.Keys
    && forall k :: k in m.tables ==>
         n.tables[k] == if k in names then m.tables[k].(segments := m.tables[k].segments + R.Stamp(outs[k], version)) else m.tables[k]
  }

  lemma {:induction false} FlushApplies(m: Manifest, names: seq<TableName>, outs: map<TableName, set<nat>>, version: nat, nowMs: nat)
    requires DistinctTables(names) && forall i :: 0 <= i < |names| ==> names[i] in outs && names[i] in m.tables
    ensures var r := ApplyEdits(m, FlushEdits(names, outs, version), version, nowMs);
            r.Ok? && Grown(m, r.m, names, outs, version)
    decreases |names|
  {
    if names != [] {
      var first, rest := names[0], names[1..];
      var e := AddSegments(first, R.Stamp(outs[first], version));
      assert FlushEdits(names, outs, version)[1..] == FlushEdits(rest, outs, version);
      var mid := ApplyEdit(m, e, version, nowMs).m;
      FlushApplies(mid, rest, outs, version, nowMs);
      assert names == [first] + rest && first !in rest;
    }
  }

  /** A flush's commit is one `AddSegments` for each table it took, in whatever order. */
  lemma FlushIsCommit(
    m: Manifest, s: R.Store, t: R.Store, outs: map<TableName, set<nat>>, data: map<nat, R.Batch>, nextId: nat,
    names: seq<TableName>, nowMs: nat)
    requires Mirrors(m, s) && R.FlushCommit(s, t, outs, data, nextId)
    requires DistinctTables(names) && forall n :: n in names <==> n in outs
    ensures Publishes(m, FlushEdits(names, outs, s.version + 1), nowMs, t)
  {
    forall i | 0 <= i < |names| ensures names[i] in outs && names[i] in m.tables { assert names[i] in names; }
    FlushApplies(m, names, outs, s.version + 1, nowMs);
    var n := ApplyEdits(m, FlushEdits(names, outs, s.version + 1), s.version + 1, nowMs).m;
    GrownMirrors(m, n, s, t, outs, data, nextId, names);
    assert Apply(m, FlushEdits(names, outs, s.version + 1), nowMs) == Ok(n.(version := s.version + 1));
  }

  lemma GrownMirrors(
    m: Manifest, n: Manifest, s: R.Store, t: R.Store, outs: map<TableName, set<nat>>, data: map<nat, R.Batch>, nextId: nat,
    names: seq<TableName>)
    requires Mirrors(m, s) && R.FlushCommit(s, t, outs, data, nextId) && forall k :: k in names <==> k in outs
    requires forall i :: 0 <= i < |names| ==> names[i] in outs
    requires Grown(m, n, names, outs, s.version + 1)
    ensures Mirrors(n.(version := s.version + 1), t)
  {
  }

  // ── Compaction: `RemoveSegments`, then `AddSegments` ───────────────────────

  function CompactEdits(p: R.Prepared): seq<Edit>
  {
    [RemoveSegments(p.name, Ids(R.Inputs(p.plans))), AddSegments(p.name, R.Outputs(p.plans))]
  }

  /** The one state a compaction can commit to. */
  ghost function Compacted(s: R.Store, c: nat): R.Store
    requires c in s.prepared && s.prepared[c].name in s.tables
  {
    var p := s.prepared[c];
    var tab := s.tables[p.name];
    var kept := set x | x in tab.segments && x.id !in Ids(R.Inputs(p.plans));
    s.(version := s.version + 1, prepared := s.prepared - {c},
       tables := s.tables[p.name := tab.(segments := kept + R.Outputs(p.plans))])
  }

  lemma CompactApplies(m: Manifest, name: TableName, ids: set<nat>, outs: set<Segment>, nowMs: nat)
    requires name in m.tables
    ensures var r := Apply(m, [RemoveSegments(name, ids), AddSegments(name, outs)], nowMs);
            && (r.Ok? <==> !HasJob(m, name) && ids <= Ids(m.tables[name].segments))
            && (r.Ok? ==>
                  var tab := m.tables[name];
                  var kept := set x | x in tab.segments && x.id !in ids;
                  r.m.version == m.version + 1 && r.m.tables == m.tables[name := tab.(segments := kept + outs)])
  {
    TwoEdits(m, RemoveSegments(name, ids), AddSegments(name, outs), nowMs);
    var tab := m.tables[name];
    var gone := set x | x in tab.segments && x.id in ids;
    assert (set x | x in tab.segments && x.id !in ids) == tab.segments - gone;
  }

  /** A compaction's commit is its two edits; the manifest refuses them exactly when an input is
      gone or a migration runs on the table. */
  lemma CompactIsCommit(m: Manifest, s: R.Store, c: nat, nowMs: nat)
    requires Mirrors(m, s) && c in s.prepared && s.prepared[c].name in s.tables
    ensures var r := Apply(m, CompactEdits(s.prepared[c]), nowMs);
            && (r.Ok? <==> !HasJob(m, s.prepared[c].name) && R.CompactCommit(s, Compacted(s, c), c))
            && (r.Ok? ==> Mirrors(r.m, Compacted(s, c)))
  {
    var p := s.prepared[c];
    CompactApplies(m, p.name, Ids(R.Inputs(p.plans)), R.Outputs(p.plans), nowMs);
    assert SameTable(m.tables[p.name], s.tables[p.name]);
  }
}
