/** What the commits on a whole table leave to a reader (src/storage/manifest/commit.rs): truncate,
    cancel, drop and undrop, swap and revert, with any commits of others between the two. */
module TableEdits {
  import opened Options
  import opened Seqs
  import opened Manifest
  import opened Commits

  /** Every segment of a table with the predicates of the tombstones that cover it: with the files'
      rows, all that a reader sees of it. */
  function Shown(t: Table): set<(Segment, set<nat>)>
  {
    set x | x in t.segments :: (x, set d | d in t.tombstones && x.seqNo < d.seqNo :: d.pred)
  }

  // ── Truncate and cancel ────────────────────────────────────────────────────

  /** Truncating shows nothing of the table, keeps its identity, and touches no other. */
  lemma TruncateLeaves(m: Manifest, name: TableName, nowMs: nat)
    ensures var r := Apply(m, [TruncateTable(name)], nowMs);
            && (r.Ok? <==> name in m.tables && !HasJob(m, name))
            && (r.Ok? ==>
                  && r.m.tables.Keys == m.tables.Keys && r.m.jobs == m.jobs && r.m.retired == m.retired
                  && Shown(r.m.tables[name]) == {} && r.m.tables[name].tombstones == {} && r.m.tables[name].tid == m.tables[name].tid
                  && forall k :: k in m.tables && k != name ==> r.m.tables[k] == m.tables[k])
  {
    OneEdit(m, TruncateTable(name), nowMs);
  }

  /** Cancelling a job shows readers what they saw. */
  lemma CancelLeaves(m: Manifest, job: nat, nowMs: nat)
    ensures var r := Apply(m, [CancelJob(job)], nowMs);
            && (r.Ok? <==> job in m.jobs)
            && (r.Ok? ==> r.m.tables == m.tables && r.m.retired == m.retired && r.m.jobs == m.jobs - {job})
  {
    OneEdit(m, CancelJob(job), nowMs);
  }

  /** Forgetting drops exactly the garbage entries of the ids, and expiring exactly the retired entries
      older than the limit; readers see what they saw. */
  lemma {:induction false} ForgetLeaves(m: Manifest, ids: set<nat>, nowMs: nat)
    ensures var r := Apply(m, [ForgetGarbage(ids)], nowMs);
            && r.Ok? && GarbageIds(r.m) == GarbageIds(m) - ids && r.m.garbage <= m.garbage
            && r.m.tables == m.tables && r.m.jobs == m.jobs && r.m.retired == m.retired
  {
    OneEdit(m, ForgetGarbage(ids), nowMs);
    var n := Apply(m, [ForgetGarbage(ids)], nowMs).m;
    forall id | id in GarbageIds(m) && id !in ids ensures id in GarbageIds(n) {
      var g :| g in m.garbage && g.id == id;
      assert g in n.garbage;
    }
  }

  lemma {:induction false} ExpireLeaves(m: Manifest, beforeMs: nat, nowMs: nat)
    ensures var r := Apply(m, [ExpireRetired(beforeMs)], nowMs);
            && r.Ok? && r.m.tables == m.tables && r.m.jobs == m.jobs
            && forall x :: x in r.m.retired <==> x in m.retired && x.retiredAtMs >= beforeMs
  {
    OneEdit(m, ExpireRetired(beforeMs), nowMs);
  }

  /** Whatever a commit releases is stamped with its own time and version, and was not garbage yet:
      its grace period and its window begin there. */
  lemma {:induction false} ReleasedNow(m: Manifest, e: Edit, nowMs: nat)
    requires Apply(m, [e], nowMs).Ok?
    ensures forall g :: g in Apply(m, [e], nowMs).m.garbage && g !in m.garbage ==>
              g.removedAtMs == nowMs && g.removedAtVersion == m.version + 1 && g.id !in GarbageIds(m)
  {
    OneEdit(m, e, nowMs);
  }

  // ── The last entry retired for a reason ────────────────────────────────────

  function Last(rs: seq<Retired>, name: TableName, reason: Reason): Option<Retired>
  {
    if rs == [] then None
    else if rs[|rs| - 1].name == name && rs[|rs| - 1].reason == reason then Some(rs[|rs| - 1])
    else Last(rs[..|rs| - 1], name, reason)
  }

  lemma {:induction false} LastFound(rs: seq<Retired>, name: TableName, reason: Reason)
    ensures var i := LastRetired(rs, name, reason); Last(rs, name, reason) == if i < 0 then None else Some(rs[i])
  {
    if rs != [] { LastFound(rs[..|rs| - 1], name, reason); }
  }

  lemma LastPush(rs: seq<Retired>, r: Retired, name: TableName, reason: Reason)
    ensures Last(rs + [r], name, reason) == if r.name == name && r.reason == reason then Some(r) else Last(rs, name, reason)
  {
    assert (rs + [r])[..|rs|] == rs;
  }

  lemma {:induction false} WithoutPush<T>(s: seq<T>, x: T, i: nat)
    requires i < |s|
    ensures Without(s + [x], i) == Without(s, i) + [x]
  {
    var all := s + [x];
    assert all[..i] == s[..i] && all[i + 1..] == s[i + 1..] + [x];
    Assoc(s[..i], s[i + 1..], [x]);
  }

  /** Taking out another entry does not change which is last. */
  lemma {:induction false} LastWithout(rs: seq<Retired>, i: nat, name: TableName, reason: Reason)
    requires i < |rs| && !(rs[i].name == name && rs[i].reason == reason)
    ensures Last(Without(rs, i), name, reason) == Last(rs, name, reason)
  {
    var n := |rs| - 1;
    var init, r := rs[..n], rs[n];
    assert init + [r] == rs;
    LastPush(init, r, name, reason);
    if i == n {
      assert rs[..i] + rs[i + 1..] == init;
    } else {
      LastWithout(init, i, name, reason);
      WithoutPush(init, r, i);
      LastPush(Without(init, i), r, name, reason);
    }
  }

  lemma {:induction false} KeepPush(rs: seq<Retired>, r: Retired, beforeMs: nat)
    ensures Keep(rs + [r], beforeMs) == Keep(rs, beforeMs) + if r.retiredAtMs < beforeMs then [] else [r]
  {
    if rs != [] {
      assert (rs + [r])[0] == rs[0] && (rs + [r])[1..] == rs[1..] + [r];
      KeepPush(rs[1..], r, beforeMs);
    }
  }

  /** The last entry stays last unless it expires itself. */
  lemma {:induction false} LastKept(rs: seq<Retired>, beforeMs: nat, name: TableName, reason: Reason)
    requires Last(rs, name, reason).Some? && Last(rs, name, reason).value.retiredAtMs >= beforeMs
    ensures Last(Keep(rs, beforeMs), name, reason) == Last(rs, name, reason)
  {
    var init, r := rs[..|rs| - 1], rs[|rs| - 1];
    assert init + [r] == rs;
    KeepPush(init, r, beforeMs);
    LastPush(Keep(init, beforeMs), r, name, reason);
    if !(r.name == name && r.reason == reason) {
      LastKept(init, beforeMs, name, reason);
      if r.retiredAtMs < beforeMs { assert Keep(init, beforeMs) + [] == Keep(init, beforeMs); }
    }
  }

  /** Edits that retire no entry of this name for this reason, take none out, and let the last live. */
  predicate LeavesLast(m: Manifest, e: Edit, name: TableName, reason: Reason)
  {
    match e
    case SwapJob(job) => reason != Swapped || (job in m.jobs ==> m.jobs[job].name != name)
    case RevertTable(other) => reason == Dropped || other != name
    case DropTable(other) => reason != Dropped || other != name
    case UndropTable(other) => reason != Dropped || other != name
    case ExpireRetired(beforeMs) =>
      Last(m.retired, name, reason).Some? && Last(m.retired, name, reason).value.retiredAtMs >= beforeMs
    case _ => true
  }

  lemma {:induction false} LastStays(m: Manifest, e: Edit, version: nat, nowMs: nat, name: TableName, reason: Reason)
    requires LeavesLast(m, e, name, reason) && ApplyEdit(m, e, version, nowMs).Ok?
    ensures Last(ApplyEdit(m, e, version, nowMs).m.retired, name, reason) == Last(m.retired, name, reason)
  {
    match e {
      case SwapJob(job) =>
        var j := m.jobs[job];
        LastPush(m.retired, Retired(j.name, m.tables[j.name], Swapped, nowMs, version, Ids(j.target.segments)), name, reason);
      case RevertTable(other) => LastReverted(m, other, version, nowMs, name, reason);
      case DropTable(other) => LastPush(m.retired, Retired(other, m.tables[other], Dropped, nowMs, version, {}), name, reason);
      case UndropTable(other) => LastWithout(m.retired, LastRetired(m.retired, other, Dropped), name, reason);
      case ExpireRetired(beforeMs) => LastKept(m.retired, beforeMs, name, reason);
      case _ =>
    }
  }

  lemma {:induction false} LastReverted(m: Manifest, other: TableName, version: nat, nowMs: nat, name: TableName, reason: Reason)
    requires ApplyEdit(m, RevertTable(other), version, nowMs).Ok? && (reason == Dropped || other != name)
    ensures Last(ApplyEdit(m, RevertTable(other), version, nowMs).m.retired, name, reason) == Last(m.retired, name, reason)
  {
    var i := LastRetired(m.retired, other, Swapped);
    LastWithout(m.retired, i, name, reason);
    LastPush(Without(m.retired, i), Retired(other, m.tables[other], Reverted, nowMs, version, {}), name, reason);
  }

  // ── Runs of commits ────────────────────────────────────────────────────────

  /** One commit after another, each with its time. */
  function ApplyAll(m: Manifest, cs: seq<(Edit, nat)>): Result
  {
    if cs == [] then Ok(m)
    else
      var r := ApplyAll(m, cs[..|cs| - 1]);
      if r.Ok? then Apply(r.m, [cs[|cs| - 1].0], cs[|cs| - 1].1) else r
  }

  // ── Drop, then undrop ──────────────────────────────────────────────────────

  lemma DropLeaves(m: Manifest, name: TableName, nowMs: nat)
    ensures var r := Apply(m, [DropTable(name)], nowMs);
            && (r.Ok? <==> name in m.tables && !HasJob(m, name))
            && (r.Ok? ==>
                  && r.m.tables == m.tables - {name} && r.m.jobs == m.jobs
                  && r.m.retired == m.retired + [Retired(name, m.tables[name], Dropped, nowMs, m.version + 1, {})])
  {
    OneEdit(m, DropTable(name), nowMs);
  }

  /** Commits that leave a dropped table recoverable: none makes a table of that name, takes it back,
      or expires it. */
  predicate Spares(e: Edit, name: TableName, droppedAtMs: nat)
  {
    && (e.CreateTable? || e.UndropTable? ==> e.name != name)
    && (e.ExpireRetired? ==> e.beforeMs <= droppedAtMs)
  }

  /** The table is gone, and its last dropped entry is `r`. */
  ghost predicate Gone(m: Manifest, name: TableName, r: Retired)
  {
    name !in m.tables && Last(m.retired, name, Dropped) == Some(r)
  }

  lemma {:induction false} SparesKeep(m: Manifest, e: Edit, version: nat, nowMs: nat, name: TableName, r: Retired)
    requires Gone(m, name, r) && Spares(e, name, r.retiredAtMs) && ApplyEdit(m, e, version, nowMs).Ok?
    ensures Gone(ApplyEdit(m, e, version, nowMs).m, name, r)
  {
    LastStays(m, e, version, nowMs, name, Dropped);
    StaysGone(m, e, version, nowMs, name);
  }

  /** Only making or undropping a table of that name brings one back. */
  lemma {:induction false} StaysGone(m: Manifest, e: Edit, version: nat, nowMs: nat, name: TableName)
    requires name !in m.tables && ApplyEdit(m, e, version, nowMs).Ok?
    requires e.CreateTable? || e.UndropTable? ==> e.name != name
    ensures name !in ApplyEdit(m, e, version, nowMs).m.tables
  {
  }

  lemma {:induction false} SparesRun(m: Manifest, cs: seq<(Edit, nat)>, name: TableName, r: Retired)
    requires Gone(m, name, r) && ApplyAll(m, cs).Ok?
    requires forall i :: 0 <= i < |cs| ==> Spares(cs[i].0, name, r.retiredAtMs)
    ensures Gone(ApplyAll(m, cs).m, name, r)
    decreases |cs|
  {
    if cs != [] {
      var n := |cs| - 1;
      SparesRun(m, cs[..n], name, r);
      var mid := ApplyAll(m, cs[..n]).m;
      OneEdit(mid, cs[n].0, cs[n].1);
      SparesKeep(mid, cs[n].0, mid.version + 1, cs[n].1, name, r);
    }
  }

  /** A dropped table can be taken back, whatever was committed since, with every segment and every
      delete it had: unless another took its name, took it back or expired it. */
  lemma {:induction false} UndropRestores(m: Manifest, name: TableName, droppedAtMs: nat, cs: seq<(Edit, nat)>, nowMs: nat)
    requires Apply(m, [DropTable(name)], droppedAtMs).Ok?
    requires ApplyAll(Apply(m, [DropTable(name)], droppedAtMs).m, cs).Ok?
    requires forall i :: 0 <= i < |cs| ==> Spares(cs[i].0, name, droppedAtMs)
    ensures var later := ApplyAll(Apply(m, [DropTable(name)], droppedAtMs).m, cs).m;
            var r := Apply(later, [UndropTable(name)], nowMs);
            && r.Ok? && r.m.tables == later.tables[name := m.tables[name]] && r.m.jobs == later.jobs
            && Shown(r.m.tables[name]) == Shown(m.tables[name])
  {
    var dropped := Apply(m, [DropTable(name)], droppedAtMs).m;
    var entry := Retired(name, m.tables[name], Dropped, droppedAtMs, m.version + 1, {});
    DropLeaves(m, name, droppedAtMs);
    LastPush(m.retired, entry, name, Dropped);
    SparesRun(dropped, cs, name, entry);
    var later := ApplyAll(dropped, cs).m;
    LastFound(later.retired, name, Dropped);
    OneEdit(later, UndropTable(name), nowMs);
  }

  /** Undropping is refused exactly when nothing was dropped, or the name is taken. */
  lemma UndropRefused(m: Manifest, name: TableName, nowMs: nat)
    ensures var r := Apply(m, [UndropTable(name)], nowMs);
            && (r == NotDropped <==> forall x :: x in m.retired ==> !(x.name == name && x.reason == Dropped))
            && (r.Ok? || r == NotDropped || (r == Conflict && name in m.tables))
  {
    OneEdit(m, UndropTable(name), nowMs);
    var i := LastRetired(m.retired, name, Dropped);
    if i >= 0 { assert m.retired[i] in m.retired; }
  }

  // ── Swap, then revert ──────────────────────────────────────────────────────

  /** Commits under which a swapped table may still be reverted: flushes, deletes and compactions on
      it, and anything on other tables that expires nothing of its age. */
  predicate Lets(m: Manifest, e: Edit, name: TableName, swappedAtMs: nat)
  {
    && (e.RevertTable? || e.TruncateTable? || e.DropTable? ==> e.name != name)
    && (e.SwapJob? && e.job in m.jobs ==> m.jobs[e.job].name != name)
    && (e.ExpireRetired? ==> e.beforeMs <= swappedAtMs)
  }

  /** The swapped table since: it still has every delete of the source, and the others are newer. */
  ghost predicate Since(m: Manifest, name: TableName, r: Retired)
  {
    && name in m.tables && Last(m.retired, name, Swapped) == Some(r) && r.version <= m.version
    && r.entry.tombstones <= m.tables[name].tombstones
    && forall d :: d in m.tables[name].tombstones ==> d in r.entry.tombstones || d.seqNo > r.version
  }

  lemma {:induction false} LetsKeep(m: Manifest, e: Edit, version: nat, nowMs: nat, name: TableName, r: Retired)
    requires Since(m, name, r) && Lets(m, e, name, r.retiredAtMs) && ApplyEdit(m, e, version, nowMs).Ok?
    ensures Since(ApplyEdit(m, e, version, nowMs).m, name, r)
  {
    LastStays(m, e, version, nowMs, name, Swapped);
    TombstonesSince(m, e, version, nowMs, name);
  }

  lemma {:induction false} TombstonesSince(m: Manifest, e: Edit, version: nat, nowMs: nat, name: TableName)
    requires name in m.tables && ApplyEdit(m, e, version, nowMs).Ok?
    requires e.RevertTable? || e.TruncateTable? || e.DropTable? ==> e.name != name
    requires e.SwapJob? && e.job in m.jobs ==> m.jobs[e.job].name != name
    ensures var n := ApplyEdit(m, e, version, nowMs).m;
            && name in n.tables && n.version == m.version && m.tables[name].tombstones <= n.tables[name].tombstones
            && forall d :: d in n.tables[name].tombstones && d !in m.tables[name].tombstones ==> d.seqNo == m.version + 1
  {
  }

  /** Every commit of the run is of that kind when its turn comes. */
  ghost predicate LetsAll(m: Manifest, cs: seq<(Edit, nat)>, name: TableName, swappedAtMs: nat)
  {
    cs == [] ||
      var n := |cs| - 1;
      LetsAll(m, cs[..n], name, swappedAtMs) && (ApplyAll(m, cs[..n]).Ok? ==> Lets(ApplyAll(m, cs[..n]).m, cs[n].0, name, swappedAtMs))
  }

  lemma {:induction false} SinceRun(m: Manifest, cs: seq<(Edit, nat)>, name: TableName, r: Retired)
    requires Since(m, name, r) && ApplyAll(m, cs).Ok? && LetsAll(m, cs, name, r.retiredAtMs)
    ensures Since(ApplyAll(m, cs).m, name, r)
    decreases |cs|
  {
    if cs != [] {
      var n := |cs| - 1;
      SinceRun(m, cs[..n], name, r);
      var mid := ApplyAll(m, cs[..n]).m;
      OneEdit(mid, cs[n].0, cs[n].1);
      LetsKeep(mid, cs[n].0, mid.version + 1, cs[n].1, name, r);
    }
  }

  /** The swap puts the target in the source's place with all its deletes, and keeps the source. */
  lemma SwapLeaves(m: Manifest, job: nat, nowMs: nat)
    ensures var r := Apply(m, [SwapJob(job)], nowMs);
            && (r.Ok? <==>
                  && job in m.jobs && m.jobs[job].name in m.tables && m.tables[m.jobs[job].name].tid == m.jobs[job].source
                  && Ids(m.tables[m.jobs[job].name].segments) <= m.jobs[job].handled)
            && (r.Ok? ==>
                  var name, target := m.jobs[job].name, m.jobs[job].target;
                  && r.m.tables == m.tables[name := Table(target.tid, target.segments, m.tables[name].tombstones)]
                  && r.m.jobs == m.jobs - {job} && r.m.version == m.version + 1
                  && r.m.retired == m.retired + [Retired(name, m.tables[name], Swapped, nowMs, m.version + 1, Ids(target.segments))])
  {
    OneEdit(m, SwapJob(job), nowMs);
  }

  /** Reverting undoes the migration and nothing else: the source comes back with the segments
      flushed since, under every delete the swapped table had, before the swap or after. It is refused
      exactly when a job runs on the table or a segment of the migration is no longer live. */
  lemma {:induction false} RevertRestores(m: Manifest, job: nat, swappedAtMs: nat, cs: seq<(Edit, nat)>, nowMs: nat)
    requires Apply(m, [SwapJob(job)], swappedAtMs).Ok?
    requires ApplyAll(Apply(m, [SwapJob(job)], swappedAtMs).m, cs).Ok?
    requires LetsAll(Apply(m, [SwapJob(job)], swappedAtMs).m, cs, m.jobs[job].name, swappedAtMs)
    ensures var name, target := m.jobs[job].name, m.jobs[job].target;
            var later := ApplyAll(Apply(m, [SwapJob(job)], swappedAtMs).m, cs).m;
            var r := Apply(later, [RevertTable(name)], nowMs);
            && name in later.tables
            && (r.Ok? <==> !HasJob(later, name) && Ids(target.segments) <= Ids(later.tables[name].segments))
            && (r.Ok? ==>
                  && r.m.tables.Keys == later.tables.Keys && r.m.jobs == later.jobs
                  && r.m.tables[name].tid == m.tables[name].tid
                  && r.m.tables[name].segments == m.tables[name].segments +
                       set x | x in later.tables[name].segments && x.id !in Ids(target.segments)
                  && r.m.tables[name].tombstones == later.tables[name].tombstones
                  && forall k :: k in later.tables && k != name ==> r.m.tables[k] == later.tables[k])
  {
    var name, target := m.jobs[job].name, m.jobs[job].target;
    SwapLeaves(m, job, swappedAtMs);
    var swapped := Apply(m, [SwapJob(job)], swappedAtMs).m;
    var entry := Retired(name, m.tables[name], Swapped, swappedAtMs, m.version + 1, Ids(target.segments));
    LastPush(m.retired, entry, name, Swapped);
    SinceRun(swapped, cs, name, entry);
    RevertLeaves(ApplyAll(swapped, cs).m, name, entry, nowMs);
  }

  lemma RevertLeaves(m: Manifest, name: TableName, entry: Retired, nowMs: nat)
    requires Since(m, name, entry)
    ensures var r := Apply(m, [RevertTable(name)], nowMs);
            && (r.Ok? <==> !HasJob(m, name) && entry.successors <= Ids(m.tables[name].segments))
            && (r.Ok? ==>
                  && r.m.jobs == m.jobs
                  && r.m.tables == m.tables[name := Table(
                       entry.entry.tid,
                       entry.entry.segments + (set x | x in m.tables[name].segments && x.id !in entry.successors),
                       m.tables[name].tombstones)])
  {
    LastFound(m.retired, name, Swapped);
    OneEdit(m, RevertTable(name), nowMs);
    var cur := m.tables[name];
    assert cur.tombstones == entry.entry.tombstones + set d | d in cur.tombstones && d.seqNo > entry.version;
  }
}
