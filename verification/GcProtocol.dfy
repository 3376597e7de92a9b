/** Commits, snapshots and garbage collection interleaving (src/storage/mod.rs, gc.rs,
    manifest/publish.rs). Each lock-protected region is one step: a commit publishes and then
    swaps `current` in; a GC run reads the manifest, reads the live list, and deletes file by
    file. Any number of GC runs may be under way at once. */
module GcProtocol {
  import opened Manifest

  /** A live in-process view of one version. `how` says which call made it; `guarded`, whether the
      version was `Kept` then. */
  datatype Opened = BySnapshot | ByViewAt
  datatype View = View(version: nat, how: Opened, guarded: bool)

  /** One GC run: it has read manifest `at`; then it has also read the live versions, and `todo`
      garbage entries are still ahead of it. `removed` are the ids it deleted. */
  datatype Gc =
    | HasManifest(at: nat)
    | Deleting(at: nat, live: set<nat>, todo: set<Garbage>, removed: set<nat>)

  /** Why a file is gone: the garbage stamp and the manifest version the run worked from. */
  datatype Removal = Removal(stamp: nat, at: nat)

  datatype Store = Store(
    retain: nat,
    history: seq<Manifest>,        // every published version, in order
    current: nat,                  // the version `state.current` holds
    links: set<nat>,               // manifest.<v> hard links on disk
    swept: bool,                   // the first prune sweeps the whole directory
    nextId: nat,
    unpublished: set<nat>,         // files written for a commit that has not happened
    files: set<nat>,               // segment files on disk
    removals: map<nat, Removal>,   // history variable: files GC has deleted
    views: map<nat, View>,
    gcs: map<nat, Gc>,
    floor: nat,                    // history variable: the oldest version every earlier process kept
    tidy: bool)                    // history variable: no link was left outside the window

  function Latest(s: Store): int
  {
    |s.history| - 1
  }

  ghost predicate Init(s: Store)
  {
    s == Store(s.retain, [Empty], 0, {}, false, 0, {}, {}, map[], map[], map[], 0, true)
  }

  // ── Steps ──────────────────────────────────────────────────────────────────

  /** `Publisher::prune`: after the first full sweep, only the link that just fell out goes. */
  function Prune(links: set<nat>, latest: nat, retain: nat, swept: bool): (set<nat>, bool)
  {
    if retain == 0 || latest < retain then (links, swept)
    else if swept then (links - {latest - retain}, true)
    else (set v | v in links && v > latest - retain, true)
  }

  /** A flush, compaction or migration writes one segment file under a fresh id. */
  ghost predicate WriteFile(s: Store, t: Store)
  {
    t == s.(nextId := s.nextId + 1, unpublished := s.unpublished + {s.nextId}, files := s.files + {s.nextId})
  }

  function Published(s: Store, m: Manifest): Store
  {
    var (links, swept) := Prune(s.links + {m.version}, m.version, s.retain, s.swept);
    s.(history := s.history + [m], links := links, swept := swept)
  }

  /** A commit under the `commit` lock: apply, publish, link, prune. `current` still lags. */
  ghost predicate Publish(s: Store, t: Store, edits: seq<Edit>, nowMs: nat)
  {
    && s.current == Latest(s) && s.current < |s.history|
    && AddedAll(edits) <= s.unpublished && Distinct(edits) && ForgottenAll(edits) == {}
    && var r := Apply(s.history[s.current], edits, nowMs);
    && r.Ok?
    && t == Published(s, r.m).(unpublished := s.unpublished - AddedAll(edits))
  }

  /** The commit's last act under `state`: the new version becomes current. */
  ghost predicate Swap(s: Store, t: Store)
  {
    s.current < Latest(s) && t == s.(current := s.current + 1)
  }

  ghost predicate Snapshot(s: Store, t: Store, handle: nat)
  {
    handle !in s.views && t == s.(views := s.views[handle := View(s.current, BySnapshot, true)])
  }

  /** The oldest version whose files this process keeps. */
  function Oldest(s: Store): nat
  {
    if s.retain <= 1 then s.current else if s.current + 1 >= s.retain then s.current + 1 - s.retain else 0
  }

  /** Whether the files of version `v` are kept: it is current, or within the retention window of
      this process and of every earlier one. */
  predicate Kept(s: Store, v: nat)
  {
    v >= s.current || (v >= s.floor && v + s.retain > s.current)
  }

  /** `view_at`: the current version, or an older one whose link is still there. */
  ghost predicate ViewAt(s: Store, t: Store, handle: nat, version: nat)
  {
    && handle !in s.views
    && (version == s.current || (version < s.current && version in s.links))
    && t == s.(views := s.views[handle := View(version, ByViewAt, Kept(s, version))])
  }

  /** The link and prune of a publication are best effort: links of any earlier versions may be left. */
  ghost predicate Stray(s: Store, t: Store, links: set<nat>)
  {
    (forall v :: v in links ==> v <= Latest(s)) && t == s.(links := links, tidy := false)
  }

  /** The files the newest manifest names, as live, job or garbage segments. */
  ghost function Reachable(s: Store): set<nat>
    requires |s.history| >= 1
  {
    set id | id in s.files && Mentions(s, |s.history| - 1, id)
  }

  /** A new process on the same directory. It counts ids on from the newest manifest, above every id
      one has named, and removes the files that manifest does not name. Links stay within the window
      if the last process pruned them and this one keeps no fewer. */
  ghost predicate Reopen(s: Store, t: Store, retain: nat, nextId: nat)
  {
    && |s.history| >= 1
    && (forall v: nat, id: nat :: Mentions(s, v, id) ==> id < nextId)
    && t == s.(retain := retain, current := |s.history| - 1, swept := false, nextId := nextId,
               unpublished := {}, files := Reachable(s),
               views := map[], gcs := map[],
               floor := if s.floor >= Oldest(s) then s.floor else Oldest(s),
               tidy := s.tidy && 0 < s.retain <= retain)
  }

  ghost predicate CloseView(s: Store, t: Store, handle: nat)
  {
    handle in s.views && t == s.(views := s.views - {handle})
  }

  ghost predicate GcStart(s: Store, t: Store, run: nat)
  {
    run !in s.gcs && t == s.(gcs := s.gcs[run := HasManifest(s.current)])
  }

  function LiveVersions(s: Store): set<nat>
  {
    set h | h in s.views :: s.views[h].version
  }

  ghost predicate GcReadLive(s: Store, t: Store, run: nat)
  {
    && run in s.gcs && s.gcs[run].HasManifest? && s.gcs[run].at < |s.history|
    && var at := s.gcs[run].at;
    && t == s.(gcs := s.gcs[run := Deleting(at, LiveVersions(s), s.history[at].garbage, {})])
  }

  /** The retention test of gc.rs: released inside the window of a retained version. */
  predicate InWindow(g: Garbage, retain: nat, version: nat)
  {
    retain > 0 && g.removedAtVersion > 0 && g.removedAtVersion + retain > version + 1
  }

  /** Whether a run working from version `at` deletes `g`, once its grace period is over. */
  predicate Deletable(s: Store, at: nat, live: set<nat>, g: Garbage)
  {
    && at < |s.history|
    && !InWindow(g, s.retain, at)
    && !References(s.history[at], g.id)
    && (forall v :: v in live && v < |s.history| ==> !References(s.history[v], g.id))
  }

  /** One turn of the loop: the entry is skipped (too young, or not deletable), or deleted. */
  ghost predicate GcTurn(s: Store, t: Store, run: nat, g: Garbage, delete: bool)
  {
    && run in s.gcs && s.gcs[run].Deleting? && g in s.gcs[run].todo
    && var k := s.gcs[run];
    && if delete then
         && Deletable(s, k.at, k.live, g)
         && t == s.(gcs := s.gcs[run := k.(todo := k.todo - {g}, removed := k.removed + {g.id})],
                    files := s.files - {g.id},
                    removals := s.removals[g.id := Removal(g.removedAtVersion, k.at)])
       else
         t == s.(gcs := s.gcs[run := k.(todo := k.todo - {g})])
  }

  /** A run's closing `ForgetGarbage` commit for the files it deleted. */
  ghost predicate GcForget(s: Store, t: Store, run: nat, nowMs: nat)
  {
    && run in s.gcs && s.gcs[run].Deleting? && s.gcs[run].todo == {}
    && s.current == Latest(s) && s.current < |s.history|
    && var r := Apply(s.history[s.current], [ForgetGarbage(s.gcs[run].removed)], nowMs);
    && r.Ok?
    && t == Published(s, r.m).(gcs := s.gcs - {run})
  }

  ghost predicate GcDone(s: Store, t: Store, run: nat)
  {
    run in s.gcs && t == s.(gcs := s.gcs - {run})
  }

  datatype Action =
    | AWriteFile
    | APublish(edits: seq<Edit>, nowMs: nat)
    | ASwap
    | ASnapshot(handle: nat)
    | AViewAt(handle: nat, version: nat)
    | AStray(links: set<nat>)
    | AReopen(retain: nat, nextId: nat)
    | ACloseView(handle: nat)
    | AGcStart(run: nat)
    | AGcReadLive(run: nat)
    | AGcTurn(run: nat, g: Garbage, delete: bool)
    | AGcForget(run: nat, nowMs: nat)
    | AGcDone(run: nat)

  ghost predicate Step(s: Store, t: Store, a: Action)
  {
    match a
    case AWriteFile => WriteFile(s, t)
    case APublish(edits, nowMs) => Publish(s, t, edits, nowMs)
    case ASwap => Swap(s, t)
    case ASnapshot(handle) => Snapshot(s, t, handle)
    case AViewAt(handle, version) => ViewAt(s, t, handle, version)
    case AStray(links) => Stray(s, t, links)
    case AReopen(retain, nextId) => Reopen(s, t, retain, nextId)
    case ACloseView(handle) => CloseView(s, t, handle)
    case AGcStart(run) => GcStart(s, t, run)
    case AGcReadLive(run) => GcReadLive(s, t, run)
    case AGcTurn(run, g, delete) => GcTurn(s, t, run, g, delete)
    case AGcForget(run, nowMs) => GcForget(s, t, run, nowMs)
    case AGcDone(run) => GcDone(s, t, run)
  }

  /** A run of the store: states linked by steps, from a fresh store. */
  ghost predicate Run(states: seq<Store>, actions: seq<Action>)
  {
    && |states| == |actions| + 1 && Init(states[0])
    && forall i :: 0 <= i < |actions| ==> Step(states[i], states[i + 1], actions[i])
  }

  // ── What every step keeps ──────────────────────────────────────────────────

  ghost predicate Shape(s: Store)
  {
    && |s.history| >= 1
    && s.floor <= s.current <= Latest(s) <= s.current + 1
    && (forall v :: 0 <= v < |s.history| ==> s.history[v].version == v && Wf(s.history[v]) && JobIdsFresh(s.history[v]))
    && (forall v :: v in s.links ==> v <= Latest(s))
  }

  ghost predicate ReadersBehind(s: Store)
  {
    && (forall h :: h in s.views ==> s.views[h].version <= s.current)
    && (forall k :: k in s.gcs ==> s.gcs[k].at <= s.current)
  }

  /** Segment ids are used once: what is not yet published has never been named. */
  ghost predicate FreshIds(s: Store)
  {
    && (forall id :: id in s.unpublished ==> id < s.nextId && id in s.files && id !in s.removals)
    && (forall v: nat, id: nat :: Mentions(s, v, id) ==> id < s.nextId && id !in s.unpublished)
  }

  ghost predicate Mentions(s: Store, v: nat, id: nat)
  {
    v < |s.history| && (References(s.history[v], id) || id in GarbageIds(s.history[v]))
  }

  /** The heart of it: garbage stamped `r` is named by no version from `r` on. */
  ghost predicate Stamped(history: seq<Manifest>, id: nat, r: nat)
  {
    r > 0 && forall w :: r <= w < |history| ==> !References(history[w], id)
  }

  ghost predicate GarbageStamped(s: Store)
  {
    forall v, g :: 0 <= v < |s.history| && g in s.history[v].garbage ==>
      g.removedAtVersion <= v && Stamped(s.history, g.id, g.removedAtVersion)
  }

  /** Every named file is on disk unless GC removed it, and GC removed it only after it had left
      the retention window of the manifest it worked from, in this process or an earlier one. */
  ghost predicate FilesAccounted(s: Store)
  {
    && (forall v, id :: 0 <= v < |s.history| && References(s.history[v], id) ==> id in s.files || id in s.removals)
    && (forall id :: id in s.removals ==>
          var r := s.removals[id];
          && r.stamp <= r.at <= s.current && Mentions(s, r.at, id)
          && Stamped(s.history, id, r.stamp)
          && (r.stamp <= s.floor || r.stamp + s.retain <= r.at + 1))
  }

  /** A link survives only inside the retention windows, unless one was left. */
  ghost predicate LinksInWindow(s: Store)
  {
    s.tidy && s.retain > 0 ==> forall v :: v in s.links ==> v >= s.floor && v + s.retain > Latest(s)
  }

  /** The views GC promises to respect. */
  predicate Protected(v: View)
  {
    v.how == BySnapshot || v.guarded
  }

  ghost predicate ViewsGuarded(s: Store)
  {
    s.tidy && s.retain > 0 ==> forall h :: h in s.views ==> s.views[h].guarded
  }

  /** A run that has read the live list: every protected view was in the list, or is at least as
      new as the run's manifest, or is inside its retention window. */
  ghost predicate RunsRespectViews(s: Store)
  {
    forall k, h :: k in s.gcs && s.gcs[k].Deleting? && h in s.views && Protected(s.views[h]) ==>
      var v := s.views[h].version;
      v in s.gcs[k].live || v >= s.gcs[k].at || v + s.retain > s.gcs[k].at
  }

  ghost predicate RunsWorkOnGarbage(s: Store)
  {
    forall k, g :: k in s.gcs && s.gcs[k].Deleting? && g in s.gcs[k].todo ==>
      s.gcs[k].at < |s.history| && g in s.history[s.gcs[k].at].garbage
  }

  predicate Names(s: Store, version: nat, id: nat)
  {
    version < |s.history| && References(s.history[version], id)
  }

  /** No file a protected view names is gone. */
  ghost predicate ViewsIntact(s: Store)
  {
    forall h, id :: h in s.views && Protected(s.views[h]) && Names(s, s.views[h].version, id) ==> id in s.files
  }

  ghost predicate HistoryInv(s: Store)
  {
    && Shape(s) && FreshIds(s) && GarbageStamped(s) && FilesAccounted(s) && LinksInWindow(s)
    && (forall id :: id in s.removals ==> id !in s.files)
  }

  ghost predicate ReaderInv(s: Store)
  {
    ReadersBehind(s) && RunsRespectViews(s) && RunsWorkOnGarbage(s) && ViewsIntact(s) && ViewsGuarded(s)
  }

  ghost predicate Inv(s: Store)
  {
    HistoryInv(s) && ReaderInv(s)
  }

  /** Every file any version ever named is still named, or garbage awaiting collection, or was
      removed; and a run only forgets what it removed. */
  ghost predicate NoLeak(s: Store)
  {
    && (forall v: nat, id: nat :: Names(s, v, id) ==> Held(s, id))
    && (forall k, id :: k in s.gcs && s.gcs[k].Deleting? && id in s.gcs[k].removed ==> id in s.removals)
  }

  ghost predicate Held(s: Store, id: nat)
  {
    id in s.removals || (|s.history| >= 1 && Mentions(s, |s.history| - 1, id))
  }

  /** Opening and closing views and GC runs leaves the history invariants alone. */
  lemma HistoryFrame(s: Store, t: Store)
    requires HistoryInv(s) && t == s.(views := t.views, gcs := t.gcs)
    ensures HistoryInv(t)
  {
    SameHistory(s, t);
  }

  lemma InitInv(s: Store)
    requires Init(s)
    ensures Inv(s)
  {
    assert forall id :: !References(Empty, id);
  }

  /** What an added version must satisfy for the history invariants to carry over. */
  lemma ApplyEvolves(s: Store, edits: seq<Edit>, nowMs: nat)
    requires Shape(s) && FreshIds(s) && s.current == Latest(s)
    requires AddedAll(edits) <= s.unpublished && Distinct(edits)
    requires Apply(s.history[s.current], edits, nowMs).Ok?
    ensures var n := Apply(s.history[s.current], edits, nowMs).m;
            && n.version == |s.history| && Wf(n) && JobIdsFresh(n)
            && Evolves(s.history[s.current], n, AddedAll(edits), ForgottenAll(edits), n.version)
  {
    var m := s.history[s.current];
    var mid := ApplyEdits(m, edits, m.version + 1, nowMs).m;
    assert forall id: nat :: id in AddedAll(edits) ==> !Mentions(s, s.current, id);
    EditsEvolve(m, edits, m.version + 1, nowMs);
    VersionIsNotAName(mid, m.version + 1);
  }

  lemma VersionIsNotAName(m: Manifest, version: nat)
    ensures forall id :: References(m.(version := version), id) <==> References(m, id)
    ensures Wf(m) ==> Wf(m.(version := version))
  {
    var n := m.(version := version);
    forall id ensures References(n, id) <==> References(m, id) {
      assert InTables(n, id) <==> InTables(m, id);
      assert InJobs(n, id) <==> InJobs(m, id);
    }
  }

  /** Stamps survive a new version: it names nothing that was gone. */
  lemma StampSurvives(history: seq<Manifest>, n: Manifest, added: set<nat>, forgot: set<nat>, id: nat, r: nat)
    requires |history| >= 1 && r <= |history| - 1 && Stamped(history, id, r)
    requires Evolves(history[|history| - 1], n, added, forgot, n.version) && id !in added
    ensures Stamped(history + [n], id, r)
  {
    var next := history + [n];
    forall w | r <= w < |next| ensures !References(next[w], id) {
      if w == |history| { assert !References(history[|history| - 1], id); }
    }
  }

  lemma OldGarbageStamped(s: Store, n: Manifest, added: set<nat>, forgot: set<nat>, v: nat, g: Garbage)
    requires Shape(s) && FreshIds(s) && GarbageStamped(s) && s.current == Latest(s) && added <= s.unpublished
    requires n.version == |s.history| && Wf(n)
    requires Evolves(s.history[s.current], n, added, forgot, n.version)
    requires v < |s.history| && g in s.history[v].garbage
    ensures g.removedAtVersion <= v && Stamped(s.history + [n], g.id, g.removedAtVersion)
  {
    assert Mentions(s, v, g.id);
    StampSurvives(s.history, n, added, forgot, g.id, g.removedAtVersion);
  }

  lemma NewGarbageStamped(s: Store, n: Manifest, added: set<nat>, forgot: set<nat>)
    requires Shape(s) && FreshIds(s) && GarbageStamped(s) && s.current == Latest(s) && added <= s.unpublished
    requires n.version == |s.history| && Wf(n)
    requires Evolves(s.history[s.current], n, added, forgot, n.version)
    ensures GarbageStamped(s.(history := s.history + [n]))
  {
    var h := s.history + [n];
    forall v, g | 0 <= v < |h| && g in h[v].garbage
      ensures g.removedAtVersion <= v && Stamped(h, g.id, g.removedAtVersion)
    {
      if v < |s.history| {
        OldGarbageStamped(s, n, added, forgot, v, g);
      } else if g in s.history[s.current].garbage {
        OldGarbageStamped(s, n, added, forgot, s.current, g);
      } else {
        assert g.id in GarbageIds(n);
      }
    }
  }

  lemma NewVersionFresh(s: Store, n: Manifest, added: set<nat>, forgot: set<nat>)
    requires Shape(s) && FreshIds(s) && s.current == Latest(s) && added <= s.unpublished
    requires n.version == |s.history|
    requires Evolves(s.history[s.current], n, added, forgot, n.version)
    ensures FreshIds(s.(history := s.history + [n], unpublished := s.unpublished - added))
  {
    var t := s.(history := s.history + [n], unpublished := s.unpublished - added);
    var m := s.history[s.current];
    forall v: nat, id: nat | Mentions(t, v, id)
      ensures id < t.nextId && id !in t.unpublished
    {
      if v < |s.history| {
        assert Mentions(s, v, id);
      } else if References(n, id) {
        assert id in added || Mentions(s, s.current, id);
      } else {
        var g :| g in n.garbage && g.id == id;
        if g in m.garbage { assert id in GarbageIds(m); }
        assert id in added || Mentions(s, s.current, id);
      }
    }
  }

  lemma NewVersionAccounted(s: Store, n: Manifest, added: set<nat>, forgot: set<nat>)
    requires Shape(s) && FreshIds(s) && FilesAccounted(s) && s.current == Latest(s) && added <= s.unpublished
    requires n.version == |s.history|
    requires Evolves(s.history[s.current], n, added, forgot, n.version)
    ensures FilesAccounted(s.(history := s.history + [n], unpublished := s.unpublished - added))
  {
    var t := s.(history := s.history + [n], unpublished := s.unpublished - added);
    forall v, id | 0 <= v < |t.history| && References(t.history[v], id)
      ensures id in t.files || id in t.removals
    {
      if v < |s.history| { assert t.history[v] == s.history[v]; }
    }
    forall id | id in t.removals
      ensures Stamped(t.history, id, t.removals[id].stamp)
    {
      StampSurvives(s.history, n, added, forgot, id, s.removals[id].stamp);
    }
  }

  lemma PruneKeepsWindow(links: set<nat>, latest: nat, retain: nat, swept: bool)
    requires retain > 0
    requires forall v :: v in links ==> v + retain >= latest
    ensures var (kept, _) := Prune(links, latest, retain, swept);
            kept <= links && forall v :: v in kept ==> v + retain > latest
  {
  }

  lemma NewVersionLinks(s: Store, n: Manifest)
    requires Shape(s) && LinksInWindow(s) && n.version == |s.history|
    ensures LinksInWindow(Published(s, n))
    ensures Published(s, n).links <= s.links + {n.version}
  {
    if s.tidy && s.retain > 0 {
      PruneKeepsWindow(s.links + {n.version}, n.version, s.retain, s.swept);
    }
  }

  lemma PublishedHistory(s: Store, t: Store, n: Manifest, added: set<nat>, forgot: set<nat>)
    requires HistoryInv(s) && s.current == Latest(s) && added <= s.unpublished
    requires n.version == |s.history| && Wf(n) && JobIdsFresh(n)
    requires Evolves(s.history[s.current], n, added, forgot, n.version)
    requires t == Published(s, n).(unpublished := s.unpublished - added)
    ensures HistoryInv(t)
  {
    NewGarbageStamped(s, n, added, forgot);
    NewVersionFresh(s, n, added, forgot);
    NewVersionAccounted(s, n, added, forgot);
    NewVersionLinks(s, n);
    var u := s.(history := s.history + [n], unpublished := s.unpublished - added);
    SameHistory(u, t);
    assert Shape(t);
  }

  lemma PublishedReaders(s: Store, t: Store, n: Manifest)
    requires ReaderInv(s) && s.current < |s.history|
    requires t.history == s.history + [n] && t.current == s.current
    requires t.retain == s.retain && t.views == s.views && t.gcs == s.gcs && t.files == s.files && t.tidy == s.tidy
    ensures ReaderInv(t)
  {
    forall h, id | h in t.views && Protected(t.views[h]) && Names(t, t.views[h].version, id)
      ensures id in t.files
    {
      assert Names(s, s.views[h].version, id);
    }
  }

  lemma PublishedKeeps(s: Store, t: Store, n: Manifest, added: set<nat>, forgot: set<nat>)
    requires Inv(s) && s.current == Latest(s) && added <= s.unpublished
    requires n.version == |s.history| && Wf(n) && JobIdsFresh(n)
    requires Evolves(s.history[s.current], n, added, forgot, n.version)
    requires t == Published(s, n).(unpublished := s.unpublished - added)
    ensures Inv(t)
  {
    PublishedHistory(s, t, n, added, forgot);
    PublishedReaders(s, t, n);
  }

  lemma PublishKeeps(s: Store, t: Store, edits: seq<Edit>, nowMs: nat)
    requires Inv(s) && Publish(s, t, edits, nowMs)
    ensures Inv(t)
  {
    ApplyEvolves(s, edits, nowMs);
    PublishedKeeps(s, t, Apply(s.history[s.current], edits, nowMs).m, AddedAll(edits), {});
  }

  lemma ForgetKeeps(s: Store, t: Store, run: nat, nowMs: nat)
    requires Inv(s) && GcForget(s, t, run, nowMs)
    ensures Inv(t)
  {
    var edits := [ForgetGarbage(s.gcs[run].removed)];
    SingleEdit(edits[0]);
    ApplyEvolves(s, edits, nowMs);
    var n := Apply(s.history[s.current], edits, nowMs).m;
    PublishedKeeps(s, Published(s, n), n, {}, ForgottenAll(edits));
    RunEndKeeps(Published(s, n), t, run);
  }

  lemma RunEndKeeps(s: Store, t: Store, run: nat)
    requires Inv(s) && t == s.(gcs := s.gcs - {run})
    ensures Inv(t)
  {
    HistoryFrame(s, t);
    SameHistory(s, t);
  }

  lemma SameHistory(s: Store, t: Store)
    requires s.history == t.history
    ensures forall v: nat, id: nat {:trigger Names(t, v, id)} {:trigger Mentions(t, v, id)} ::
              (Names(t, v, id) <==> Names(s, v, id)) && (Mentions(t, v, id) <==> Mentions(s, v, id))
  {
  }

  lemma WriteFileKeeps(s: Store, t: Store)
    requires Inv(s) && WriteFile(s, t)
    ensures Inv(t)
  {
    SameHistory(s, t);
  }

  lemma SwapKeeps(s: Store, t: Store)
    requires Inv(s) && Swap(s, t)
    ensures Inv(t)
  {
    SameHistory(s, t);
  }

  /** A view opened now names only files that are there: nothing it names was ever removable. */
  lemma OpenedIntact(s: Store, v: nat, id: nat)
    requires Inv(s) && v <= s.current && Names(s, v, id)
    requires Kept(s, v)
    ensures id in s.files
  {
    if id in s.removals { RemovedUnnamed(s, v, id); }
  }

  lemma RemovedUnnamed(s: Store, v: nat, id: nat)
    requires Inv(s) && id in s.removals
    requires Kept(s, v)
    ensures !Names(s, v, id)
  {
    var r := s.removals[id];
    assert r.stamp <= v;
  }

  lemma OpenKeeps(s: Store, t: Store, handle: nat, v: View)
    requires Inv(s) && handle !in s.views && v.version <= s.current
    requires v.version == s.current || (v.how == ByViewAt && v.version in s.links)
    requires v.how == ByViewAt ==> v.guarded == Kept(s, v.version)
    requires v.how == BySnapshot ==> v.guarded
    requires t == s.(views := s.views[handle := v])
    ensures Inv(t)
  {
    HistoryFrame(s, t);
    SameHistory(s, t);
    forall h, id | h in t.views && Protected(t.views[h]) && Names(t, t.views[h].version, id)
      ensures id in t.files
    {
      assert Names(s, t.views[h].version, id);
      if h == handle { OpenedIntact(s, v.version, id); }
    }
    forall k, h | k in t.gcs && t.gcs[k].Deleting? && h in t.views && Protected(t.views[h])
      ensures var w := t.views[h].version; w in t.gcs[k].live || w >= t.gcs[k].at || w + t.retain > t.gcs[k].at
    {
      if h == handle { assert t.gcs[k].at <= s.current; }
    }
  }

  lemma StrayKeeps(s: Store, t: Store, links: set<nat>)
    requires Inv(s) && Stray(s, t, links)
    ensures Inv(t)
  {
    SameHistory(s, t);
  }

  /** Removing orphans touches no file that was ever named and not removed. */
  lemma OrphansUnnamed(s: Store, v: nat, id: nat)
    requires Inv(s) && NoLeak(s) && Names(s, v, id) && id in s.files
    ensures id in Reachable(s)
  {
    assert Held(s, id);
  }

  /** What an earlier process removed is stamped no later than the oldest version it kept. */
  lemma ReopenAccounted(s: Store, t: Store, retain: nat, nextId: nat)
    requires Inv(s) && NoLeak(s) && Reopen(s, t, retain, nextId)
    ensures FilesAccounted(t)
  {
    SameHistory(s, t);
    forall v, id | 0 <= v < |t.history| && References(t.history[v], id)
      ensures id in t.files || id in t.removals
    {
      assert Names(s, v, id);
      if id in s.files { OrphansUnnamed(s, v, id); }
    }
    forall id | id in t.removals ensures t.removals[id].stamp <= t.floor {
      assert s.removals[id].at <= s.current;
    }
  }

  lemma ReopenKeeps(s: Store, t: Store, retain: nat, nextId: nat)
    requires Inv(s) && NoLeak(s) && Reopen(s, t, retain, nextId)
    ensures Inv(t)
  {
    SameHistory(s, t);
    ReopenAccounted(s, t, retain, nextId);
  }

  lemma CloseKeeps(s: Store, t: Store, handle: nat)
    requires Inv(s) && CloseView(s, t, handle)
    ensures Inv(t)
  {
    HistoryFrame(s, t);
    SameHistory(s, t);
  }

  lemma GcStartKeeps(s: Store, t: Store, run: nat)
    requires Inv(s) && GcStart(s, t, run)
    ensures Inv(t)
  {
    HistoryFrame(s, t);
    SameHistory(s, t);
  }

  lemma GcReadLiveKeeps(s: Store, t: Store, run: nat)
    requires Inv(s) && GcReadLive(s, t, run)
    ensures Inv(t)
  {
    HistoryFrame(s, t);
    SameHistory(s, t);
    assert forall h :: h in s.views ==> s.views[h].version in LiveVersions(s);
  }

  /** The deletion itself: no protected view names the file. */
  lemma DeletedUnnamed(s: Store, run: nat, g: Garbage, h: nat)
    requires Inv(s) && run in s.gcs && s.gcs[run].Deleting? && g in s.gcs[run].todo
    requires Deletable(s, s.gcs[run].at, s.gcs[run].live, g)
    requires h in s.views && Protected(s.views[h])
    ensures !Names(s, s.views[h].version, g.id)
  {
    var k, v := s.gcs[run], s.views[h].version;
    assert g in s.history[k.at].garbage;
    if v in k.live {
    } else if v >= k.at {
      assert g.removedAtVersion <= v;
    } else {
      assert v + s.retain > k.at;
      assert s.retain > 0;
      assert g.removedAtVersion <= v;
    }
  }

  lemma GcSkipKeeps(s: Store, t: Store, run: nat, g: Garbage)
    requires Inv(s) && GcTurn(s, t, run, g, false)
    ensures Inv(t)
  {
    HistoryFrame(s, t);
    SameHistory(s, t);
  }

  lemma GcDeleteHistory(s: Store, t: Store, run: nat, g: Garbage)
    requires Inv(s) && GcTurn(s, t, run, g, true)
    ensures HistoryInv(t)
  {
    SameHistory(s, t);
    var k := s.gcs[run];
    assert g in s.history[k.at].garbage;
    assert Mentions(s, k.at, g.id);
    assert Stamped(t.history, g.id, g.removedAtVersion);
  }

  lemma GcDeleteIntact(s: Store, t: Store, run: nat, g: Garbage)
    requires Inv(s) && GcTurn(s, t, run, g, true)
    ensures ViewsIntact(t)
  {
    SameHistory(s, t);
    forall h, id | h in t.views && Protected(t.views[h]) && Names(t, t.views[h].version, id)
      ensures id in t.files
    {
      assert Names(s, s.views[h].version, id);
      DeletedUnnamed(s, run, g, h);
    }
  }

  lemma GcDeleteKeeps(s: Store, t: Store, run: nat, g: Garbage)
    requires Inv(s) && GcTurn(s, t, run, g, true)
    ensures Inv(t)
  {
    GcDeleteHistory(s, t, run, g);
    GcDeleteIntact(s, t, run, g);
  }

  lemma StepKeeps(s: Store, t: Store, a: Action)
    requires Inv(s) && NoLeak(s) && Step(s, t, a)
    ensures Inv(t)
  {
    match a {
      case AWriteFile => WriteFileKeeps(s, t);
      case APublish(edits, nowMs) => PublishKeeps(s, t, edits, nowMs);
      case ASwap => SwapKeeps(s, t);
      case ASnapshot(handle) => OpenKeeps(s, t, handle, View(s.current, BySnapshot, true));
      case AViewAt(handle, version) => OpenKeeps(s, t, handle, View(version, ByViewAt, Kept(s, version)));
      case AStray(links) => StrayKeeps(s, t, links);
      case AReopen(retain, nextId) => ReopenKeeps(s, t, retain, nextId);
      case ACloseView(handle) => CloseKeeps(s, t, handle);
      case AGcStart(run) => GcStartKeeps(s, t, run);
      case AGcReadLive(run) => GcReadLiveKeeps(s, t, run);
      case AGcTurn(run, g, delete) =>
        if delete { GcDeleteKeeps(s, t, run, g); } else { GcSkipKeeps(s, t, run, g); }
      case AGcForget(run, nowMs) => ForgetKeeps(s, t, run, nowMs);
      case AGcDone(run) => RunEndKeeps(s, t, run);
    }
  }

  // ── Nothing leaks ──────────────────────────────────────────────────────────

  lemma PublishedNoLeak(s: Store, t: Store, n: Manifest, added: set<nat>, forgot: set<nat>)
    requires Inv(s) && NoLeak(s) && s.current == Latest(s)
    requires Evolves(s.history[s.current], n, added, forgot, n.version)
    requires forall id :: id in forgot ==> id in s.removals
    requires t.history == s.history + [n] && t.removals == s.removals && t.gcs == s.gcs
    ensures NoLeak(t)
  {
    var m := s.history[s.current];
    forall v: nat, id: nat | Names(t, v, id) ensures Held(t, id) {
      if v < |s.history| {
        assert Names(s, v, id);
        assert Held(s, id);
        if id !in s.removals && !References(n, id) {
          if References(m, id) {
            assert id in GarbageIds(n);
          } else {
            var g :| g in m.garbage && g.id == id;
            assert g in n.garbage;
          }
          assert Mentions(t, |t.history| - 1, id);
        }
      } else {
        assert Mentions(t, |t.history| - 1, id);
      }
      assert References(n, id) ==> Mentions(t, |t.history| - 1, id);
    }
  }

  lemma QuietNoLeak(s: Store, t: Store)
    requires NoLeak(s) && t.history == s.history
    requires forall id :: id in s.removals ==> id in t.removals
    requires forall k, id :: k in t.gcs && t.gcs[k].Deleting? && id in t.gcs[k].removed ==> id in t.removals
    ensures NoLeak(t)
  {
    SameHistory(s, t);
    assert forall id: nat :: Held(s, id) ==> Held(t, id);
  }

  lemma ForgetNoLeak(s: Store, t: Store, run: nat, nowMs: nat)
    requires Inv(s) && NoLeak(s) && GcForget(s, t, run, nowMs)
    ensures NoLeak(t)
  {
    var edits := [ForgetGarbage(s.gcs[run].removed)];
    SingleEdit(edits[0]);
    ApplyEvolves(s, edits, nowMs);
    var n := Apply(s.history[s.current], edits, nowMs).m;
    PublishedNoLeak(s, Published(s, n), n, {}, s.gcs[run].removed);
    QuietNoLeak(Published(s, n), t);
  }

  /** Steps that publish nothing: they keep every removal, and a run records only what it removed. */
  predicate Quiet(a: Action)
  {
    !a.APublish? && !a.AGcForget?
  }

  lemma TurnNoLeak(s: Store, t: Store, run: nat, g: Garbage, delete: bool)
    requires NoLeak(s) && GcTurn(s, t, run, g, delete)
    ensures NoLeak(t)
  {
    QuietNoLeak(s, t);
  }

  lemma RestNoLeak(s: Store, t: Store, a: Action)
    requires NoLeak(s) && Step(s, t, a) && Quiet(a) && !a.AGcTurn?
    ensures NoLeak(t)
  {
    QuietNoLeak(s, t);
  }

  lemma StepNoLeak(s: Store, t: Store, a: Action)
    requires Inv(s) && NoLeak(s) && Step(s, t, a)
    ensures NoLeak(t)
  {
    match a {
      case APublish(edits, nowMs) =>
        ApplyEvolves(s, edits, nowMs);
        PublishedNoLeak(s, t, Apply(s.history[s.current], edits, nowMs).m, AddedAll(edits), {});
      case AGcForget(run, nowMs) => ForgetNoLeak(s, t, run, nowMs);
      case AGcTurn(run, g, delete) => TurnNoLeak(s, t, run, g, delete);
      case _ => RestNoLeak(s, t, a);
    }
  }

  lemma InitNoLeak(s: Store)
    requires Init(s)
    ensures NoLeak(s)
  {
    assert forall id :: !References(Empty, id);
  }

  ghost predicate Good(s: Store)
  {
    Inv(s) && NoLeak(s)
  }

  lemma StepKeepsGood(s: Store, t: Store, a: Action)
    requires Good(s) && Step(s, t, a)
    ensures Good(t)
  {
    StepKeeps(s, t, a);
    StepNoLeak(s, t, a);
  }

  /** A positive retention stays positive while links are pruned in time. */
  lemma StepKeepsRetention(s: Store, t: Store, a: Action)
    requires Step(s, t, a)
    ensures t.tidy ==> s.tidy && t.retain >= s.retain
  {
  }

  lemma {:induction false} RunKeeps(states: seq<Store>, actions: seq<Action>, i: nat)
    requires Run(states, actions) && i < |states|
    ensures Good(states[i]) && (states[i].tidy ==> states[i].retain >= states[0].retain)
    decreases i
  {
    if i == 0 {
      InitInv(states[0]);
      InitNoLeak(states[0]);
    } else {
      RunKeeps(states, actions, i - 1);
      assert Step(states[i - 1], states[i], actions[i - 1]);
      StepKeepsGood(states[i - 1], states[i], actions[i - 1]);
      StepKeepsRetention(states[i - 1], states[i], actions[i - 1]);
    }
  }

  // ── The theorems ───────────────────────────────────────────────────────────

  /** GC is safe for readers: at every point of every run, every file named by a live view is on
      disk, if the view is a snapshot, or was opened on the current version or on one within the
      retention window of its process and of every earlier one — whatever links were left, and
      however often the store was reopened with whatever retention. */
  lemma ReadersAreSafe(states: seq<Store>, actions: seq<Action>, i: nat, h: nat, id: nat)
    requires Run(states, actions) && i < |states|
    requires h in states[i].views && Names(states[i], states[i].views[h].version, id)
    requires states[i].views[h].how == BySnapshot || states[i].views[h].guarded
    ensures id in states[i].files
  {
    RunKeeps(states, actions, i);
  }

  /** While no link is left outside the window, `view_at` only opens such versions. */
  lemma TidyReadersAreSafe(states: seq<Store>, actions: seq<Action>, i: nat, h: nat, id: nat)
    requires Run(states, actions) && i < |states| && states[i].tidy
    requires h in states[i].views && Names(states[i], states[i].views[h].version, id)
    requires states[i].retain > 0 || states[i].views[h].how == BySnapshot
    ensures id in states[i].files
  {
    RunKeeps(states, actions, i);
  }

  /** Retention: every file named by the current version, or by one within the retention windows so
      far, is on disk, although each GC run works from whatever manifest it happened to read. */
  lemma RetainedVersionsReadable(states: seq<Store>, actions: seq<Action>, i: nat, v: nat, id: nat)
    requires Run(states, actions) && i < |states|
    requires v >= states[i].current || (v >= states[i].floor && v + states[i].retain > states[i].current)
    requires Names(states[i], v, id)
    ensures id in states[i].files
  {
    RunKeeps(states, actions, i);
    if id in states[i].removals { RemovedUnnamed(states[i], v, id); }
  }

  /** Files are conserved: any file a version ever named is on disk and still reachable from the
      newest manifest (named, or garbage a later GC will visit), or a GC run deleted it. */
  lemma FilesConserved(states: seq<Store>, actions: seq<Action>, i: nat, v: nat, id: nat)
    requires Run(states, actions) && i < |states| && Names(states[i], v, id)
    ensures id in states[i].removals <==> id !in states[i].files
    ensures id in states[i].files ==> Mentions(states[i], |states[i].history| - 1, id)
  {
    RunKeeps(states, actions, i);
    assert Held(states[i], id);
  }

  // ── `view_at` outside the window ───────────────────────────────────────────

  /** One table; version 2 adds segment 0 to it, version 3 truncates it, and so does every later one. */
  function M1(): Manifest { Empty.(version := 1, nextTableId := 2, tables := map["t" := Table(1, {}, {})]) }
  function M2(): Manifest { M1().(version := 2, tables := map["t" := Table(1, {Segment(0, 2)}, {})]) }

  function VersionOf(k: nat): Manifest
  {
    if k == 0 then Empty else if k == 1 then M1() else if k == 2 then M2()
    else M1().(version := k, garbage := {Garbage(0, 0, 3)})
  }

  function HistoryTo(k: nat): seq<Manifest>
  {
    seq(k + 1, i requires 0 <= i <= k => VersionOf(i))
  }

  function EditsOf(k: nat): seq<Edit>
  {
    if k == 0 then [CreateTable("t")] else if k == 1 then [AddSegments("t", {Segment(0, 2)})] else [TruncateTable("t")]
  }

  lemma CreateOrAdd()
    ensures Apply(VersionOf(0), EditsOf(0), 0) == Ok(VersionOf(1))
    ensures Apply(VersionOf(1), EditsOf(1), 0) == Ok(VersionOf(2))
  {
    assert EditsOf(0)[1..] == [] && EditsOf(1)[1..] == [];
    assert {} + {Segment(0, 2)} == {Segment(0, 2)};
    assert M1().tables["t" := Table(1, {Segment(0, 2)}, {})] == M2().tables;
  }

  lemma FirstTruncate()
    ensures Apply(VersionOf(2), EditsOf(2), 0) == Ok(VersionOf(3))
    ensures References(VersionOf(2), 0)
  {
    var t := M2().tables["t"];
    var mid := WithTable(M2(), "t", t.(segments := {}, tombstones := {}));
    assert mid.tables == M1().tables;
    assert !References(mid, 0);
    assert Release(mid, t.segments, 3, 0).garbage == {Garbage(0, 0, 3)};
    assert !HasJob(M2(), "t");
    assert ApplyEdit(M2(), TruncateTable("t"), 3, 0) == Ok(VersionOf(3).(version := 2));
    assert EditsOf(2)[1..] == [];
    assert Segment(0, 2) in M2().tables["t"].segments;
    assert 0 in Ids(M2().tables["t"].segments);
  }

  lemma LaterTruncate(k: nat)
    requires k >= 3
    ensures Apply(VersionOf(k), EditsOf(k), 0) == Ok(VersionOf(k + 1))
    ensures !References(VersionOf(k), 0)
  {
    var m := VersionOf(k);
    var t := m.tables["t"];
    var mid := WithTable(m, "t", t.(segments := {}, tombstones := {}));
    assert mid.tables == m.tables;
    assert Release(mid, t.segments, k + 1, 0).garbage == m.garbage;
    assert !HasJob(m, "t");
    assert ApplyEdit(m, TruncateTable("t"), k + 1, 0) == Ok(m);
    var edits := EditsOf(k);
    assert edits[0] == TruncateTable("t") && edits[1..] == [];
    assert ApplyEdits(m, edits, k + 1, 0) == Ok(m);
  }

  lemma NextVersion(k: nat)
    ensures Apply(VersionOf(k), EditsOf(k), 0) == Ok(VersionOf(k + 1))
  {
    if k < 2 { CreateOrAdd(); } else if k == 2 { FirstTruncate(); } else { LaterTruncate(k); }
  }

  lemma EditsAdd(k: nat)
    ensures AddedAll(EditsOf(k)) == (if k == 1 then {0} else {})
    ensures Distinct(EditsOf(k)) && ForgottenAll(EditsOf(k)) == {}
  {
    assert EditsOf(k)[1..] == [];
    assert Ids({Segment(0, 2)}) == {0} by { assert Segment(0, 2) in {Segment(0, 2)}; }
  }

  /** A store at rest that went through the first `k` of these versions; the links of the window
      are there. */
  ghost predicate After(s: Store, retain: nat, k: nat)
  {
    && s.retain == retain && s.history == HistoryTo(k) && s.current == k
    && s.unpublished == {} && s.files == (if k < 2 then {} else {0}) && s.nextId == (if k < 2 then 0 else 1)
    && s.removals == map[] && s.views == map[] && s.gcs == map[]
    && forall v :: 1 <= v <= k && (retain == 0 || v + retain > k) ==> v in s.links
  }

  /** No link was left by a failed link or prune, and every reopening asked for `reopened`. */
  ghost predicate InTime(actions: seq<Action>, reopened: nat)
  {
    forall i :: 0 <= i < |actions| ==> !actions[i].AStray? && (actions[i].AReopen? ==> actions[i].retain == reopened)
  }

  ghost predicate EndsIn(states: seq<Store>, actions: seq<Action>, s: Store)
  {
    Run(states, actions) && states[|states| - 1] == s
  }

  lemma Extend(states: seq<Store>, actions: seq<Action>, s: Store, t: Store, a: Action)
    requires EndsIn(states, actions, s) && Step(s, t, a)
    ensures EndsIn(states + [t], actions + [a], t)
  {
    var all, done := states + [t], actions + [a];
    forall i | 0 <= i < |done| ensures Step(all[i], all[i + 1], done[i]) {
      if i < |actions| { assert Step(states[i], states[i + 1], actions[i]); }
    }
  }

  /** The file of the second version, written before its commit. */
  function Written(s: Store, k: nat): Store
  {
    if k == 1 then s.(nextId := s.nextId + 1, unpublished := s.unpublished + {s.nextId}, files := s.files + {s.nextId}) else s
  }

  function Committed(s: Store, k: nat): Store
  {
    Published(Written(s, k), VersionOf(k + 1)).(unpublished := {})
  }

  lemma PublishesNext(s: Store, retain: nat, k: nat)
    requires After(s, retain, k)
    ensures Publish(Written(s, k), Committed(s, k), EditsOf(k), 0)
  {
    NextVersion(k);
    EditsAdd(k);
    assert Written(s, k).history[k] == VersionOf(k);
  }

  lemma CommittedAfter(s: Store, retain: nat, k: nat)
    requires After(s, retain, k)
    ensures After(Committed(s, k).(current := k + 1), retain, k + 1)
  {
    assert HistoryTo(k) + [VersionOf(k + 1)] == HistoryTo(k + 1);
  }

  /** The next version is written, published and swapped in. */
  lemma Advance(states: seq<Store>, actions: seq<Action>, s: Store, retain: nat, k: nat, reopened: nat)
    returns (states': seq<Store>, actions': seq<Action>, t: Store)
    requires EndsIn(states, actions, s) && After(s, retain, k) && InTime(actions, reopened)
    ensures EndsIn(states', actions', t) && After(t, retain, k + 1) && InTime(actions', reopened)
    ensures t.tidy == s.tidy && states'[0] == states[0]
  {
    var w, c := Written(s, k), Committed(s, k);
    t := c.(current := k + 1);
    CommittedAfter(s, retain, k);
    PublishesNext(s, retain, k);
    states', actions' := states, actions;
    if k == 1 {
      Extend(states', actions', s, w, AWriteFile);
      states', actions' := states' + [w], actions' + [AWriteFile];
    }
    Extend(states', actions', w, c, APublish(EditsOf(k), 0));
    states', actions' := states' + [c], actions' + [APublish(EditsOf(k), 0)];
    Extend(states', actions', c, t, ASwap);
    states', actions' := states' + [t], actions' + [ASwap];
  }

  lemma {:induction false} AdvanceTo(states: seq<Store>, actions: seq<Action>, s: Store, retain: nat, j: nat, k: nat, reopened: nat)
    returns (states': seq<Store>, actions': seq<Action>, t: Store)
    requires EndsIn(states, actions, s) && After(s, retain, j) && j <= k && InTime(actions, reopened)
    ensures EndsIn(states', actions', t) && After(t, retain, k) && InTime(actions', reopened)
    ensures t.tidy == s.tidy && states'[0] == states[0]
    decreases k - j
  {
    if j == k {
      states', actions', t := states, actions, s;
    } else {
      states', actions', t := Advance(states, actions, s, retain, j, reopened);
      states', actions', t := AdvanceTo(states', actions', t, retain, j + 1, k, reopened);
    }
  }

  function Fresh(retain: nat): Store
  {
    Store(retain, [Empty], 0, {}, false, 0, {}, {}, map[], map[], map[], 0, true)
  }

  lemma FreshRun(retain: nat)
    ensures EndsIn([Fresh(retain)], [], Fresh(retain)) && After(Fresh(retain), retain, 0)
  {
  }

  /** The versions of a fresh store with `retain`. */
  lemma RunTo(retain: nat, k: nat, reopened: nat) returns (states: seq<Store>, actions: seq<Action>, t: Store)
    ensures EndsIn(states, actions, t) && After(t, retain, k) && InTime(actions, reopened)
    ensures t.tidy && states[0].retain == retain
  {
    FreshRun(retain);
    states, actions, t := AdvanceTo([Fresh(retain)], [], Fresh(retain), retain, 0, k, reopened);
  }

  function Old(): Garbage { Garbage(0, 0, 3) }

  /** A store at version `k` whose newest manifest still lists segment 0 as garbage, outside the window. */
  ghost predicate Ripe(s: Store, k: nat)
  {
    && k >= 3 && s.history == HistoryTo(k) && s.current == k && !InWindow(Old(), s.retain, k)
    && s.files == {0} && s.removals == map[] && s.views == map[] && s.gcs == map[]
  }

  function Started(s: Store): Store { s.(gcs := map[0 := HasManifest(s.current)]) }
  function Listed(s: Store): Store { s.(gcs := map[0 := Deleting(s.current, {}, {Old()}, {})]) }
  function Collected(s: Store): Store
  {
    s.(gcs := map[0 := Deleting(s.current, {}, {}, {0})], files := {}, removals := map[0 := Removal(3, s.current)])
  }

  lemma Starts(s: Store, k: nat)
    requires Ripe(s, k)
    ensures GcStart(s, Started(s), 0) && GcReadLive(Started(s), Listed(s), 0)
  {
    assert LiveVersions(Started(s)) == {};
  }

  /** With a view or without one: the run read the live list before it was opened. */
  lemma Collects(s: Store, k: nat, views: map<nat, View>)
    requires Ripe(s, k)
    ensures GcTurn(Listed(s).(views := views), Collected(s).(views := views), 0, Old(), true)
  {
    LaterTruncate(k);
    var u := Listed(s).(views := views);
    assert u.gcs[0].todo - {Old()} == {} && u.files - {0} == {};
    assert u.removals[0 := Removal(3, k)] == Collected(s).removals;
    assert {} + {0} == {0};
    assert u.gcs[0 := Deleting(k, {}, {}, {0})] == Collected(s).gcs;
  }

  ghost predicate EveryViewIntact(s: Store)
  {
    forall h, id :: h in s.views && Names(s, s.views[h].version, id) ==> id in s.files
  }

  lemma LostView(s: Store, k: nat, v: View)
    requires k >= 3 && s.history == HistoryTo(k) && s.views == map[0 := v] && v.version == 2 && s.files == {}
    ensures !EveryViewIntact(s)
  {
    FirstTruncate();
    assert s.history[2] == VersionOf(2);
    assert 0 in s.views && Names(s, s.views[0].version, 0) && 0 !in s.files;
  }

  /** The run reads the manifest and the live list. */
  lemma ListsRun(states: seq<Store>, actions: seq<Action>, s: Store, k: nat, reopened: nat)
    returns (states': seq<Store>, actions': seq<Action>)
    requires EndsIn(states, actions, s) && Ripe(s, k)
    ensures EndsIn(states', actions', Listed(s)) && states'[0] == states[0]
    ensures InTime(actions, reopened) ==> InTime(actions', reopened)
  {
    Starts(s, k);
    Extend(states, actions, s, Started(s), AGcStart(0));
    states', actions' := states + [Started(s)], actions + [AGcStart(0)];
    Extend(states', actions', Started(s), Listed(s), AGcReadLive(0));
    states', actions' := states' + [Listed(s)], actions' + [AGcReadLive(0)];
  }

  /** `view_at(2)` opens between a run's live-list read and its deletions, and loses its file. */
  lemma Race(states: seq<Store>, actions: seq<Action>, s: Store, k: nat, reopened: nat)
    returns (states': seq<Store>, actions': seq<Action>, t: Store)
    requires EndsIn(states, actions, s) && Ripe(s, k) && 2 in s.links
    ensures EndsIn(states', actions', t) && !EveryViewIntact(t)
    ensures t.tidy == s.tidy && states'[0] == states[0]
    ensures InTime(actions, reopened) ==> InTime(actions', reopened)
  {
    var view := View(2, ByViewAt, Kept(s, 2));
    var shown := Listed(s).(views := map[0 := view]);
    t := Collected(s).(views := map[0 := view]);
    Collects(s, k, map[0 := view]);
    assert ViewAt(Listed(s), shown, 0, 2);
    states', actions' := ListsRun(states, actions, s, k, reopened);
    Extend(states', actions', Listed(s), shown, AViewAt(0, 2));
    states', actions' := states' + [shown], actions' + [AViewAt(0, 2)];
    Extend(states', actions', shown, t, AGcTurn(0, Old(), true));
    states', actions' := states' + [t], actions' + [AGcTurn(0, Old(), true)];
    LostView(t, k, view);
  }

  lemma ReopensAfter(s: Store, retain: nat, k: nat, next: nat) returns (t: Store)
    requires After(s, retain, k)
    ensures Reopen(s, t, next, s.nextId)
    ensures t.retain == next && t.links == s.links && t.history == s.history && t.current == k
    ensures t.nextId == s.nextId && t.unpublished == {} && t.removals == map[] && t.views == map[] && t.gcs == map[]
    ensures t.files == s.files
  {
    t := s.(retain := next, swept := false, floor := if s.floor >= Oldest(s) then s.floor else Oldest(s),
            tidy := s.tidy && 0 < s.retain <= next);
    forall v: nat, id: nat | Mentions(s, v, id) ensures id < s.nextId { MentionsZero(s, retain, k, v, id); }
    if k >= 2 { ReachesZero(s, retain, k); }
    assert Reachable(s) == s.files;
  }

  lemma MentionsZero(s: Store, retain: nat, k: nat, v: nat, id: nat)
    requires After(s, retain, k) && Mentions(s, v, id)
    ensures id == 0 && k >= 2
  {
    var m := VersionOf(v);
    assert s.history[v] == m;
    if v != 2 { assert !References(m, id); }
  }

  lemma ReachesZero(s: Store, retain: nat, k: nat)
    requires After(s, retain, k) && k >= 2
    ensures Mentions(s, k, 0)
  {
    FirstTruncate();
    assert Old().id in GarbageIds(VersionOf(3)) by { assert Old() in VersionOf(3).garbage; }
    assert k > 2 ==> Old() in VersionOf(k).garbage;
  }

  /** A run at `first` in which `view_at` opens a version whose file GC then deletes. */
  lemma LosingRun(first: nat, next: nat) returns (states: seq<Store>, actions: seq<Action>, t: Store)
    requires !(0 < first <= next)
    ensures EndsIn(states, actions, t) && !EveryViewIntact(t) && InTime(actions, next)
    ensures states[0].retain == first && (first == 0 ==> t.tidy)
  {
    if first == 0 {
      states, actions, t := RunTo(0, 3, next);
      states, actions, t := Race(states, actions, t, 3, next);
    } else {
      var k := if next == 0 then 0 else next + 2;
      var s;
      states, actions, s := RunTo(first, k, next);
      t := ReopensAfter(s, first, k, next);
      Extend(states, actions, s, t, AReopen(next, s.nextId));
      states, actions := states + [t], actions + [AReopen(next, s.nextId)];
      if next == 0 { states, actions, t := AdvanceTo(states, actions, t, 0, 0, 3, next); }
      states, actions, t := Race(states, actions, t, if next == 0 then 3 else k, next);
    }
  }

  /** While links are pruned in time, no reopening lowers a positive retention. */
  lemma {:induction false} StaysTidy(states: seq<Store>, actions: seq<Action>, reopened: nat, i: nat)
    requires Run(states, actions) && InTime(actions, reopened) && i < |states|
    requires 0 < states[0].retain <= reopened
    ensures states[i].tidy && 0 < states[i].retain <= reopened
    decreases i
  {
    if i > 0 {
      StaysTidy(states, actions, reopened, i - 1);
      assert Step(states[i - 1], states[i], actions[i - 1]);
    }
  }

  /** With every link pruned in time, and reopenings that do not lower the retention, every view of
      every run keeps its files exactly when `retain_manifests` is positive. */
  lemma ViewAtNeedsRetention(retain: nat)
    ensures retain > 0 <==>
            forall states: seq<Store>, actions: seq<Action>, i: nat ::
              Run(states, actions) && states[0].retain == retain && i < |states| && states[i].tidy ==> EveryViewIntact(states[i])
  {
    if retain > 0 {
      forall states: seq<Store>, actions: seq<Action>, i: nat |
        Run(states, actions) && states[0].retain == retain && i < |states| && states[i].tidy
        ensures EveryViewIntact(states[i])
      {
        RunKeeps(states, actions, i);
      }
    } else {
      var states, actions, t := LosingRun(0, 0);
      assert states[|states| - 1].tidy;
    }
  }

  /** The same of reopenings: a store run at `first` and reopened at `next` keeps the files of every
      view, links pruned in time, exactly when neither is zero and the retention is not lowered. */
  lemma ReopeningSafeIff(first: nat, next: nat)
    ensures 0 < first <= next <==>
            forall states: seq<Store>, actions: seq<Action>, i: nat ::
              Run(states, actions) && states[0].retain == first && InTime(actions, next) && i < |states| ==> EveryViewIntact(states[i])
  {
    if 0 < first <= next {
      forall states: seq<Store>, actions: seq<Action>, i: nat |
        Run(states, actions) && states[0].retain == first && InTime(actions, next) && i < |states|
        ensures EveryViewIntact(states[i])
      {
        StaysTidy(states, actions, next, i);
        RunKeeps(states, actions, i);
      }
    } else {
      var states, actions, t := LosingRun(first, next);
      assert states[|states| - 1] == t;
    }
  }

  /** A link left outside the window lets `view_at` open a version whose files GC may delete, with
      retention on. */
  lemma LeftLinkLosesFiles()
    ensures exists states: seq<Store>, actions: seq<Action> ::
              Run(states, actions) && states[0].retain > 0 && !EveryViewIntact(states[|states| - 1])
  {
    var states, actions, s := RunTo(1, 3, 1);
    var t := s.(links := {2}, tidy := false);
    Extend(states, actions, s, t, AStray({2}));
    var states', actions', u := Race(states + [t], actions + [AStray({2})], t, 3, 1);
    assert states'[0].retain > 0;
  }

  /** Some view within the window of the process that opened it has lost a file. */
  ghost predicate LostInWindow(s: Store)
  {
    exists h, id :: h in s.views && Names(s, s.views[h].version, id) && id !in s.files
                    && s.views[h].version + s.retain > s.current
  }

  /** A store that kept nothing, collected and reopened. */
  lemma RaisedRun(retain: nat) returns (states: seq<Store>, actions: seq<Action>, t: Store)
    requires retain >= 2
    ensures EndsIn(states, actions, t) && InTime(actions, retain) && states[0].retain == 0
    ensures t.retain == retain && 2 in t.links && t.history == HistoryTo(3) && t.current == 3
    ensures t.files == {} && t.views == map[]
  {
    var s;
    states, actions, s := RunTo(0, 3, retain);
    states, actions := ListsRun(states, actions, s, 3, retain);
    Collects(s, 3, map[]);
    Extend(states, actions, Listed(s), Collected(s), AGcTurn(0, Old(), true));
    states, actions := states + [Collected(s)], actions + [AGcTurn(0, Old(), true)];
    t := RaisedReopen(s, retain);
    Extend(states, actions, Collected(s), t, AReopen(retain, 1));
    states, actions := states + [t], actions + [AReopen(retain, 1)];
  }

  /** Reopened with any retention of two or more, the link of version 2 is there and inside the new
      window, and its file was gone before the view opened. */
  lemma RaisedRetentionLosesFiles(retain: nat)
    requires retain >= 2
    ensures exists states: seq<Store>, actions: seq<Action> ::
              && Run(states, actions) && states[0].retain == 0 && InTime(actions, retain)
              && states[|states| - 1].retain == retain && LostInWindow(states[|states| - 1])
  {
    var states, actions, t := RaisedRun(retain);
    var u := t.(views := map[0 := View(2, ByViewAt, Kept(t, 2))]);
    assert ViewAt(t, u, 0, 2);
    Extend(states, actions, t, u, AViewAt(0, 2));
    FirstTruncate();
    assert u.history[2] == VersionOf(2);
    assert 0 in u.views && Names(u, u.views[0].version, 0) && 0 !in u.files;
    assert EndsIn(states + [u], actions + [AViewAt(0, 2)], u);
  }

  lemma RaisedReopen(s: Store, retain: nat) returns (t: Store)
    requires After(s, 0, 3) && retain >= 2
    ensures Reopen(Collected(s), t, retain, 1)
    ensures t.retain == retain && t.links == s.links && t.history == s.history && t.current == 3
    ensures t.files == {} && t.views == map[]
  {
    var c := Collected(s);
    t := c.(retain := retain, swept := false, nextId := 1, gcs := map[],
            floor := if c.floor >= Oldest(c) then c.floor else Oldest(c), tidy := false);
    SameHistory(s, c);
    forall v: nat, id: nat | Mentions(c, v, id) ensures id < 1 { MentionsZero(s, 0, 3, v, id); }
    assert Reachable(c) == {};
  }

  // ── The collection loop ────────────────────────────────────────────────────

  predicate GraceOver(g: Garbage, nowMs: nat, graceMs: nat)
  {
    (if nowMs >= g.removedAtMs then nowMs - g.removedAtMs else 0) >= graceMs
  }

  /** What one collection removes, entry by entry. */
  predicate Collectable(m: Manifest, live: seq<Manifest>, retain: nat, nowMs: nat, graceMs: nat, g: Garbage)
  {
    && GraceOver(g, nowMs, graceMs) && !InWindow(g, retain, m.version) && !References(m, g.id)
    && forall i :: 0 <= i < |live| ==> !References(live[i], g.id)
  }

  /** An entry whose file goes, in times and versions: its grace period has passed, no version of the
      window of `m` is older than its release, and neither `m` nor a live version names it. */
  predicate Due(m: Manifest, live: seq<Manifest>, retain: nat, nowMs: nat, graceMs: nat, g: Garbage)
  {
    && (graceMs == 0 || g.removedAtMs + graceMs <= nowMs)
    && (retain == 0 || g.removedAtVersion == 0 || g.removedAtVersion + retain <= m.version + 1)
    && !References(m, g.id) && forall i :: 0 <= i < |live| ==> !References(live[i], g.id)
  }

  lemma DueIffCollectable(m: Manifest, live: seq<Manifest>, retain: nat, nowMs: nat, graceMs: nat)
    ensures forall g :: Due(m, live, retain, nowMs, graceMs, g) <==> Collectable(m, live, retain, nowMs, graceMs, g)
  {
  }

  /** gc.rs's loop over the garbage: it removes exactly the files of collectable entries. */
  method Collect(m: Manifest, live: seq<Manifest>, retain: nat, nowMs: nat, graceMs: nat, files: set<nat>)
    returns (left: set<nat>, removed: set<nat>)
    ensures removed == set g | g in m.garbage && Collectable(m, live, retain, nowMs, graceMs, g) :: g.id
    ensures forall id :: id in removed <==> exists g :: g in m.garbage && g.id == id && Due(m, live, retain, nowMs, graceMs, g)
    ensures left == files - removed
  {
    DueIffCollectable(m, live, retain, nowMs, graceMs);
    left, removed := files, {};
    var todo := m.garbage;
    while todo != {}
      invariant todo <= m.garbage
      invariant removed == set g | g in m.garbage - todo && Collectable(m, live, retain, nowMs, graceMs, g) :: g.id
      invariant left == files - removed
      decreases |todo|
    {
      var g :| g in todo;
      ghost var before := m.garbage - todo;
      todo := todo - {g};
      assert m.garbage - todo == before + {g};
      if !GraceOver(g, nowMs, graceMs) {
        continue;
      }
      if InWindow(g, retain, m.version) {
        continue;
      }
      if (exists i :: 0 <= i < |live| && References(live[i], g.id)) || References(m, g.id) {
        continue;
      }
      left := left - {g.id};
      removed := removed + {g.id};
    }
    assert m.garbage - todo == m.garbage;
  }

  /** A protocol turn deletes only what the loop would: `Collect` over a run's manifest and the
      live versions' manifests is a sequence of permitted turns. */
  lemma CollectableIsDeletable(s: Store, at: nat, live: seq<Manifest>, nowMs: nat, graceMs: nat, g: Garbage)
    requires Inv(s) && at < |s.history|
    requires Collectable(s.history[at], live, s.retain, nowMs, graceMs, g)
    ensures Deletable(s, at, set v | 0 <= v < |s.history| && s.history[v] in live :: v, g)
  {
    var vs := set v | 0 <= v < |s.history| && s.history[v] in live :: v;
    forall v | v in vs && v < |s.history| ensures !References(s.history[v], g.id) {
      var i :| 0 <= i < |live| && live[i] == s.history[v];
    }
  }
}
