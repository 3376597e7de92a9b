/** Writers, the flusher, deletes and compactions over the same tables (src/storage/mod.rs,
    flush.rs, buffer.rs, compact.rs): what a reader sees at every point of every interleaving.

    A batch is a multiset of rows. `pending` rows belong to the current ticket; the flusher takes
    them into `inFlight`, writes segments, commits them under the new version, and resolves the
    ticket. */
module RowsProtocol {
  import opened Manifest
  import opened Sums

  type Row = seq<int>
  type Batch = multiset<Row>
  type Buffered = map<TableName, seq<Batch>>

  datatype Outcome = Acked(version: nat) | Failed

  /** The flusher thread. After the commit (or the failure) the ticket is resolved in a later
      step, when `state` has been released. */
  datatype Flusher =
    | Idle
    | Working(ticket: nat, taken: Buffered)
    | Finished(ticket: nat, outcome: Outcome)

  /** One `write_many`: its batches and the ticket it waits on. */
  datatype Write = Write(ticket: nat, batches: seq<(TableName, Batch)>)

  datatype Flush = Flush(ticket: nat, batches: Buffered)

  /** A delete between its `flush()` and its commit: the tickets it waits for, and how many
      writes had happened when it started. */
  datatype Delete = Delete(name: TableName, pred: nat, waits: set<nat>, after: nat)

  /** One merge plan after `prepare`: its inputs, and outputs written under the inputs' largest
      sequence number. */
  datatype Plan = Plan(inputs: set<Segment>, outputs: set<Segment>, seqNo: nat)
  datatype Prepared = Prepared(name: TableName, plans: seq<Plan>)

  datatype Store = Store(
    covers: (nat, Row) -> bool,          // what each delete predicate matches
    version: nat,
    tables: map<TableName, Table>,
    contents: map<nat, Batch>,           // the rows of each segment file
    nextId: nat,
    pending: Buffered,
    ticket: nat,
    inFlight: Buffered,
    inFlightTicket: set<nat>,            // at most one
    flusher: Flusher,
    outcomes: map<nat, Outcome>,
    deletes: map<nat, Delete>,
    prepared: map<nat, Prepared>,
    log: seq<Write>,                     // history variable: every write so far
    flushes: map<nat, Flush>)            // history variable: what each version's flush committed

  // ── What a reader sees ─────────────────────────────────────────────────────

  /** A tombstone covers the segments committed before it. */
  ghost predicate Dead(s: Store, tombstones: set<Tombstone>, seqNo: nat, r: Row)
  {
    exists t :: t in tombstones && t.seqNo > seqNo && s.covers(t.pred, r)
  }

  ghost function LiveIn(s: Store, tombstones: set<Tombstone>, r: Row): Segment -> nat
  {
    (seg: Segment) => if seg.id in s.contents && !Dead(s, tombstones, seg.seqNo, r) then s.contents[seg.id][r] else 0
  }

  /** Copies of `r` in the table's segments that no tombstone covers. */
  ghost function Live(s: Store, t: Table, r: Row): nat
  {
    Sum(t.segments, LiveIn(s, t.tombstones, r))
  }

  function Buffer(b: Buffered, name: TableName, r: Row): nat
  {
    if name in b then Copies(b[name], r) else 0
  }

  /** `Store::snapshot` then `View::scan`: committed live rows, then the buffered ones. */
  ghost function Visible(s: Store, name: TableName, r: Row): nat
    requires name in s.tables
  {
    Live(s, s.tables[name], r) + Buffer(s.inFlight, name, r) + Buffer(s.pending, name, r)
  }

  // ── Steps ──────────────────────────────────────────────────────────────────

  function Push(b: Buffered, name: TableName, batch: Batch): Buffered
  {
    b[name := (if name in b then b[name] else []) + [batch]]
  }

  function PushAll(b: Buffered, batches: seq<(TableName, Batch)>): Buffered
    decreases |batches|
  {
    if batches == [] then b
    else PushAll(Push(b, batches[0].0, batches[0].1), batches[1..])
  }

  ghost predicate Init(s: Store)
  {
    && s.version == 0 && s.tables == map[] && s.contents == map[] && s.nextId == 0
    && s.pending == map[] && s.ticket == 0 && s.inFlight == map[] && s.inFlightTicket == {}
    && s.flusher == Idle && s.outcomes == map[] && s.deletes == map[] && s.prepared == map[]
    && s.log == [] && s.flushes == map[]
  }

  ghost predicate Create(s: Store, t: Store, name: TableName)
  {
    && name !in s.tables
    && t == s.(version := s.version + 1, tables := s.tables[name := Table(s.version + 1, {}, {})])
  }

  /** `write_many`: rejected as a whole when a table is unknown; otherwise buffered as a whole. */
  ghost predicate WriteMany(s: Store, t: Store, batches: seq<(TableName, Batch)>)
  {
    && (forall i :: 0 <= i < |batches| ==> batches[i].0 in s.tables)
    && t == s.(pending := PushAll(s.pending, batches), log := s.log + [Write(s.ticket, batches)])
  }

  /** `wait_for_work`: takes `pending` into `inFlight` — whatever was there is overwritten. */
  ghost predicate TakeWork(s: Store, t: Store)
  {
    && s.flusher.Idle? && s.pending != map[]
    && t == s.(pending := map[], inFlight := s.pending, inFlightTicket := {s.ticket}, ticket := s.ticket + 1,
               flusher := Working(s.ticket, s.pending))
  }

  function Stamp(ids: set<nat>, seqNo: nat): set<Segment>
  {
    set id | id in ids :: Segment(id, seqNo)
  }

  /** The rows of `outs` are those of `batches`: what `Engine::flush` and `merge` promise. */
  ghost predicate SameRows(batches: seq<Batch>, outs: set<nat>, data: map<nat, Batch>)
  {
    outs <= data.Keys && forall r: Row :: Copies(batches, r) == Sum(outs, id => if id in data then data[id][r] else 0)
  }

  /** The new files of a step: fresh ids, one owner each. */
  ghost predicate FreshFiles(s: Store, data: map<nat, Batch>, nextId: nat)
  {
    s.nextId <= nextId && forall id :: id in data ==> s.nextId <= id < nextId
  }

  /** `flush::run`'s commit: one version for every table, segments stamped with it, and the
      flushed tables leave `inFlight` under the same lock. */
  ghost predicate FlushCommit(s: Store, t: Store, outs: map<TableName, set<nat>>, data: map<nat, Batch>, nextId: nat)
  {
    && s.flusher.Working? && FreshFiles(s, data, nextId)
    && var taken := s.flusher.taken;
    && outs.Keys == taken.Keys && (forall n :: n in taken ==> n in s.tables)
    && (forall n :: n in outs ==> SameRows(taken[n], outs[n], data))
    && (forall n, k :: n in outs && k in outs && n != k ==> outs[n] !! outs[k])
    && var v := s.version + 1;
    && t == s.(version := v,
               tables := map n | n in s.tables ::
                 if n in outs then s.tables[n].(segments := s.tables[n].segments + Stamp(outs[n], v)) else s.tables[n],
               contents := s.contents + data, nextId := nextId,
               inFlight := s.inFlight - taken.Keys,
               flusher := Finished(s.flusher.ticket, Acked(v)),
               flushes := s.flushes[v := Flush(s.flusher.ticket, taken)])
  }

  /** A flush that fails before its commit: its rows leave the buffer unacknowledged. */
  ghost predicate FlushFail(s: Store, t: Store)
  {
    && s.flusher.Working?
    && t == s.(inFlight := s.inFlight - s.flusher.taken.Keys, inFlightTicket := {},
               flusher := Finished(s.flusher.ticket, Failed))
  }

  ghost predicate Resolve(s: Store, t: Store)
  {
    && s.flusher.Finished?
    && t == s.(inFlightTicket := {}, flusher := Idle, outcomes := s.outcomes[s.flusher.ticket := s.flusher.outcome])
  }

  /** `Store::delete` starts: `flush()` picks the tickets it will wait for. */
  ghost predicate DeleteStart(s: Store, t: Store, d: nat, name: TableName, pred: nat)
  {
    && d !in s.deletes && name in s.tables
    && var waits := s.inFlightTicket + (if s.pending != map[] then {s.ticket} else {});
    && t == s.(deletes := s.deletes[d := Delete(name, pred, waits, |s.log|)])
  }

  ghost predicate AllAcked(s: Store, tickets: set<nat>)
  {
    forall k :: k in tickets ==> k in s.outcomes && s.outcomes[k].Acked?
  }

  /** The tombstone's own commit, once every awaited ticket was acknowledged. */
  ghost predicate DeleteCommit(s: Store, t: Store, d: nat)
  {
    && d in s.deletes && s.deletes[d].name in s.tables && AllAcked(s, s.deletes[d].waits)
    && var del := s.deletes[d];
    && var v := s.version + 1;
    && var tab := s.tables[del.name];
    && t == s.(version := v, deletes := s.deletes - {d},
               tables := s.tables[del.name := tab.(tombstones := tab.tombstones + {Tombstone(v, del.pred)})])
  }

  ghost predicate DeleteAbort(s: Store, t: Store, d: nat)
  {
    d in s.deletes && t == s.(deletes := s.deletes - {d})
  }

  /** `validate_merge` accepts a plan: live inputs, and no tombstone straddles their range. */
  ghost predicate ValidPlan(t: Table, p: Plan)
  {
    && p.inputs != {} && p.inputs <= t.segments
    && (exists m :: m in p.inputs && m.seqNo == p.seqNo)
    && (forall m :: m in p.inputs ==> m.seqNo <= p.seqNo)
    && forall x, d :: x in p.inputs && d in t.tombstones ==> !(x.seqNo < d.seqNo <= p.seqNo)
  }

  ghost function RowsIn(contents: map<nat, Batch>, r: Row): Segment -> nat
  {
    (seg: Segment) => if seg.id in contents then contents[seg.id][r] else 0
  }

  /** `Engine::merge` keeps every row. */
  ghost predicate MergeKeepsRows(contents: map<nat, Batch>, p: Plan)
  {
    forall r: Row :: Sum(p.inputs, RowsIn(contents, r)) == Sum(p.outputs, RowsIn(contents, r))
  }

  /** `compact::prepare`: validates the engine's disjoint plans against the current manifest and
      writes their outputs. Nothing is visible yet. */
  ghost predicate CompactPrepare(s: Store, t: Store, c: nat, p: Prepared, data: map<nat, Batch>, nextId: nat)
  {
    && c !in s.prepared && p.name in s.tables && FreshFiles(s, data, nextId)
    && Disjoint(p.plans)
    && t == s.(contents := s.contents + data, nextId := nextId, prepared := s.prepared[c := p])
    && forall i :: 0 <= i < |p.plans| ==>
         && ValidPlan(s.tables[p.name], p.plans[i])
         && p.plans[i].outputs == Stamp(Ids(p.plans[i].outputs), p.plans[i].seqNo)
         && Ids(p.plans[i].outputs) <= data.Keys
         && MergeKeepsRows(t.contents, p.plans[i])
  }

  /** The engine's plans share no input and no output. */
  ghost predicate Disjoint(plans: seq<Plan>)
  {
    forall i, j :: 0 <= i < j < |plans| ==>
      plans[i].inputs !! plans[j].inputs && Ids(plans[i].outputs) !! Ids(plans[j].outputs)
  }

  function Inputs(plans: seq<Plan>): set<Segment>
  {
    if plans == [] then {} else plans[0].inputs + Inputs(plans[1..])
  }

  function Outputs(plans: seq<Plan>): set<Segment>
  {
    if plans == [] then {} else plans[0].outputs + Outputs(plans[1..])
  }

  /** `compact::commit`: remove by id, then add; any input no longer live is a conflict. */
  ghost predicate CompactCommit(s: Store, t: Store, c: nat)
  {
    && c in s.prepared && s.prepared[c].name in s.tables
    && var p := s.prepared[c];
    && var tab := s.tables[p.name];
    && Ids(Inputs(p.plans)) <= Ids(tab.segments)
    && var kept := set x | x in tab.segments && x.id !in Ids(Inputs(p.plans));
    && t == s.(version := s.version + 1, prepared := s.prepared - {c},
               tables := s.tables[p.name := tab.(segments := kept + Outputs(p.plans))])
  }

  ghost predicate CompactConflict(s: Store, t: Store, c: nat)
  {
    c in s.prepared && t == s.(prepared := s.prepared - {c})
  }

  datatype Action =
    | ACreate(name: TableName)
    | AWrite(batches: seq<(TableName, Batch)>)
    | ATakeWork
    | AFlushCommit(outs: map<TableName, set<nat>>, data: map<nat, Batch>, nextId: nat)
    | AFlushFail
    | AResolve
    | ADeleteStart(d: nat, target: TableName, pred: nat)
    | ADeleteCommit(d: nat)
    | ADeleteAbort(d: nat)
    | ACompactPrepare(c: nat, p: Prepared, data: map<nat, Batch>, nextId: nat)
    | ACompactCommit(c: nat)
    | ACompactConflict(c: nat)

  ghost predicate Step(s: Store, t: Store, a: Action)
  {
    match a
    case ACreate(name) => Create(s, t, name)
    case AWrite(batches) => WriteMany(s, t, batches)
    case ATakeWork => TakeWork(s, t)
    case AFlushCommit(outs, data, nextId) => FlushCommit(s, t, outs, data, nextId)
    case AFlushFail => FlushFail(s, t)
    case AResolve => Resolve(s, t)
    case ADeleteStart(d, target, pred) => DeleteStart(s, t, d, target, pred)
    case ADeleteCommit(d) => DeleteCommit(s, t, d)
    case ADeleteAbort(d) => DeleteAbort(s, t, d)
    case ACompactPrepare(c, p, data, nextId) => CompactPrepare(s, t, c, p, data, nextId)
    case ACompactCommit(c) => CompactCommit(s, t, c)
    case ACompactConflict(c) => CompactConflict(s, t, c)
  }

  ghost predicate Run(states: seq<Store>, actions: seq<Action>)
  {
    && |states| == |actions| + 1 && Init(states[0])
    && forall i :: 0 <= i < |actions| ==> Step(states[i], states[i + 1], actions[i])
  }

  // ── What every step keeps ──────────────────────────────────────────────────

  /** The batches written under ticket `k`, in order. */
  function Under(log: seq<Write>, k: nat): seq<(TableName, Batch)>
  {
    if log == [] then []
    else Under(log[..|log| - 1], k) + (if log[|log| - 1].ticket == k then log[|log| - 1].batches else [])
  }

  function Grouped(log: seq<Write>, k: nat): Buffered
  {
    PushAll(map[], Under(log, k))
  }

  /** Segments and tombstones carry the version of their commit. */
  ghost predicate Stamped(s: Store)
  {
    forall n :: n in s.tables ==>
      && (forall x :: x in s.tables[n].segments ==> x.seqNo <= s.version && x.id in s.contents)
      && (forall d :: d in s.tables[n].tombstones ==> d.seqNo <= s.version)
  }

  /** Some table or prepared merge knows this segment. */
  ghost predicate Known(s: Store, x: Segment)
  {
    || (exists n :: n in s.tables && x in s.tables[n].segments)
    || (exists c, i :: c in s.prepared && 0 <= i < |s.prepared[c].plans| && InPlan(s.prepared[c].plans[i], x))
  }

  ghost predicate InPlan(p: Plan, x: Segment)
  {
    x in p.inputs || x in p.outputs
  }

  /** A file id names one segment. */
  ghost predicate OneSegmentPerId(s: Store)
  {
    && (forall x :: Known(s, x) ==> x.id < s.nextId)
    && (forall x, y :: Known(s, x) && Known(s, y) && x.id == y.id ==> x == y)
    && (forall id :: id in s.contents ==> id < s.nextId)
  }

  /** A prepared merge that may still commit. Its outputs are in no table yet; every tombstone,
      old or new, treats inputs and outputs alike. */
  ghost predicate MergeReady(s: Store, name: TableName, p: Plan)
  {
    && p.seqNo <= s.version && MergeKeepsRows(s.contents, p)
    && (forall x :: x in p.inputs ==> x.seqNo <= p.seqNo && x.id in s.contents)
    && (forall x :: x in p.outputs ==> x.seqNo == p.seqNo && x.id in s.contents)
    && name in s.tables
    && (forall x, d :: x in p.inputs && d in s.tables[name].tombstones ==> (d.seqNo > x.seqNo <==> d.seqNo > p.seqNo))
  }

  ghost predicate PreparedReady(s: Store)
  {
    forall c :: c in s.prepared ==>
      && Disjoint(s.prepared[c].plans)
      && (forall i :: 0 <= i < |s.prepared[c].plans| ==> MergeReady(s, s.prepared[c].name, s.prepared[c].plans[i]))
  }

  ghost predicate Output(s: Store, c: nat, x: Segment)
  {
    c in s.prepared && exists i :: 0 <= i < |s.prepared[c].plans| && x in s.prepared[c].plans[i].outputs
  }

  /** Outputs belong to one prepared merge and to no table yet. */
  ghost predicate OutputsUnpublished(s: Store)
  {
    && (forall c, x, n :: Output(s, c, x) && n in s.tables ==> x !in s.tables[n].segments)
    && (forall c, d, x :: Output(s, c, x) && Output(s, d, x) ==> c == d)
  }

  /** Where ticket `k` went when it was acknowledged at `v`. */
  ghost predicate Landed(s: Store, k: nat, v: nat)
  {
    v <= s.version && v in s.flushes && s.flushes[v] == Flush(k, Grouped(s.log, k))
  }

  ghost predicate TicketInv(s: Store)
  {
    && (forall i :: 0 <= i < |s.log| ==> s.log[i].ticket <= s.ticket)
    && s.pending == Grouped(s.log, s.ticket)
    && (match s.flusher
        case Idle => s.inFlight == map[] && s.inFlightTicket == {}
        case Working(k, taken) =>
          k < s.ticket && k !in s.outcomes && s.inFlightTicket == {k} && taken == s.inFlight == Grouped(s.log, k)
        case Finished(k, o) =>
          && k < s.ticket && k !in s.outcomes && s.inFlight == map[] && s.inFlightTicket <= {k}
          && (o.Acked? ==> Landed(s, k, o.version)))
    && (forall k :: k in s.outcomes ==> k < s.ticket && (s.outcomes[k].Acked? ==> Landed(s, k, s.outcomes[k].version)))
    && (forall k :: 0 <= k < s.ticket ==> k in s.outcomes || (!s.flusher.Idle? && s.flusher.ticket == k))
    && (forall v :: v in s.flushes ==>
          var k := s.flushes[v].ticket;
          || (k in s.outcomes && s.outcomes[k] == Acked(v))
          || s.flusher == Finished(k, Acked(v)))
  }

  /** A pending delete waits for every ticket that still buffers a write older than itself. */
  ghost predicate DeleteInv(s: Store)
  {
    forall d, i :: d in s.deletes && 0 <= i < s.deletes[d].after && i < |s.log| && s.log[i].batches != [] ==>
      && (s.log[i].ticket == s.ticket ==> s.ticket in s.deletes[d].waits)
      && (s.flusher.Working? && s.log[i].ticket == s.flusher.ticket ==> s.flusher.ticket in s.deletes[d].waits)
  }

  ghost predicate SegmentInv(s: Store)
  {
    Stamped(s) && OneSegmentPerId(s) && PreparedReady(s) && OutputsUnpublished(s)
  }

  ghost predicate Inv(s: Store)
  {
    SegmentInv(s) && TicketInv(s) && DeleteInv(s) && (forall d :: d in s.deletes ==> s.deletes[d].after <= |s.log|)
  }

  lemma InitInv(s: Store)
    requires Init(s)
    ensures Inv(s)
  {
  }

  // ── Buffers and tickets ────────────────────────────────────────────────────

  lemma {:induction false} PushAllAppend(b: Buffered, x: seq<(TableName, Batch)>, y: seq<(TableName, Batch)>)
    ensures PushAll(b, x + y) == PushAll(PushAll(b, x), y)
    decreases |x|
  {
    if x == [] {
      assert x + y == y;
    } else {
      assert (x + y)[1..] == x[1..] + y;
      PushAllAppend(Push(b, x[0].0, x[0].1), x[1..], y);
    }
  }

  lemma UnderAppend(log: seq<Write>, w: Write, k: nat)
    ensures Under(log + [w], k) == Under(log, k) + (if w.ticket == k then w.batches else [])
    ensures w.ticket != k ==> Grouped(log + [w], k) == Grouped(log, k)
    ensures w.ticket == k ==> Grouped(log + [w], k) == PushAll(Grouped(log, k), w.batches)
  {
    assert (log + [w])[..|log|] == log;
    PushAllAppend(map[], Under(log, k), w.batches);
    if w.ticket != k { assert Under(log, k) + [] == Under(log, k); }
  }

  lemma {:induction false} UnderNone(log: seq<Write>, k: nat)
    requires forall i :: 0 <= i < |log| ==> log[i].ticket != k
    ensures Under(log, k) == []
  {
    if log == [] {
    } else {
      UnderNone(log[..|log| - 1], k);
    }
  }

  /** A write under `k` with batches makes `k`'s buffer non-empty. */
  lemma {:induction false} UnderSome(log: seq<Write>, k: nat, i: nat)
    requires i < |log| && log[i].ticket == k && log[i].batches != []
    ensures Grouped(log, k) != map[]
    decreases |log|
  {
    var last := log[|log| - 1];
    assert log == log[..|log| - 1] + [last];
    UnderAppend(log[..|log| - 1], last, k);
    if i == |log| - 1 {
      PushAllNonEmpty(Grouped(log[..|log| - 1], k), last.batches);
    } else {
      UnderSome(log[..|log| - 1], k, i);
      if last.ticket == k { PushAllKeys(Grouped(log[..|log| - 1], k), last.batches); }
    }
  }

  lemma {:induction false} PushAllKeys(b: Buffered, x: seq<(TableName, Batch)>)
    ensures b.Keys <= PushAll(b, x).Keys
    decreases |x|
  {
    if x == [] {
    } else {
      PushAllKeys(Push(b, x[0].0, x[0].1), x[1..]);
    }
  }

  lemma PushAllNonEmpty(b: Buffered, x: seq<(TableName, Batch)>)
    requires x != []
    ensures PushAll(b, x) != map[]
  {
    PushAllKeys(Push(b, x[0].0, x[0].1), x[1..]);
    assert x[0].0 in PushAll(b, x).Keys;
  }

  /** Copies of `r` that a write adds to table `name`. */
  function WriteCopies(batches: seq<(TableName, Batch)>, name: TableName, r: Row): nat
  {
    if batches == [] then 0
    else (if batches[0].0 == name then batches[0].1[r] else 0) + WriteCopies(batches[1..], name, r)
  }

  lemma {:induction false} PushAllCopies(b: Buffered, x: seq<(TableName, Batch)>, name: TableName, r: Row)
    ensures Buffer(PushAll(b, x), name, r) == Buffer(b, name, r) + WriteCopies(x, name, r)
    decreases |x|
  {
    if x == [] {
    } else {
      var c := Push(b, x[0].0, x[0].1);
      PushAllCopies(c, x[1..], name, r);
      if x[0].0 == name {
        CopiesAppend(if name in b then b[name] else [], [x[0].1], r);
        assert [x[0].1][1..] == [];
      }
    }
  }

  lemma TicketFrame(s: Store, t: Store)
    requires TicketInv(s) && s.version <= t.version
    requires t.pending == s.pending && t.ticket == s.ticket && t.inFlight == s.inFlight
    requires t.inFlightTicket == s.inFlightTicket && t.flusher == s.flusher && t.outcomes == s.outcomes
    requires t.log == s.log && t.flushes == s.flushes
    ensures TicketInv(t)
  {
  }

  lemma WriteTickets(s: Store, t: Store, batches: seq<(TableName, Batch)>)
    requires TicketInv(s) && WriteMany(s, t, batches)
    ensures TicketInv(t)
  {
    var w := Write(s.ticket, batches);
    UnderAppend(s.log, w, s.ticket);
    forall k | k != s.ticket ensures Grouped(t.log, k) == Grouped(s.log, k) {
      UnderAppend(s.log, w, k);
    }
  }

  lemma TakeTickets(s: Store, t: Store)
    requires TicketInv(s) && TakeWork(s, t)
    ensures TicketInv(t)
  {
    UnderNone(t.log, t.ticket);
  }

  lemma FlushTickets(s: Store, t: Store, outs: map<TableName, set<nat>>, data: map<nat, Batch>, nextId: nat)
    requires TicketInv(s) && FlushCommit(s, t, outs, data, nextId)
    ensures TicketInv(t)
  {
    assert t.inFlight == map[];
    assert forall v :: v in s.flushes ==> Landed(s, s.flushes[v].ticket, v);
  }

  lemma FailTickets(s: Store, t: Store)
    requires TicketInv(s) && FlushFail(s, t)
    ensures TicketInv(t)
  {
    assert t.inFlight == map[];
  }

  lemma ResolveTickets(s: Store, t: Store)
    requires TicketInv(s) && Resolve(s, t)
    ensures TicketInv(t)
  {
  }

  // ── Segments ───────────────────────────────────────────────────────────────

  lemma SegmentFrame(s: Store, t: Store)
    requires SegmentInv(s)
    requires t.version == s.version && t.tables == s.tables && t.contents == s.contents
    requires t.nextId == s.nextId && t.prepared == s.prepared
    ensures SegmentInv(t)
  {
    assert forall x :: Known(t, x) <==> Known(s, x);
    assert forall c, x :: Output(t, c, x) <==> Output(s, c, x);
  }

  lemma CreateSegments(s: Store, t: Store, name: TableName)
    requires SegmentInv(s) && Create(s, t, name)
    ensures SegmentInv(t)
  {
    forall x | Known(t, x) ensures Known(s, x) {
      if exists n :: n in t.tables && x in t.tables[n].segments {
        var n :| n in t.tables && x in t.tables[n].segments;
        assert n in s.tables && x in s.tables[n].segments;
      }
    }
    assert forall c, x :: Output(t, c, x) <==> Output(s, c, x);
  }

  /** Files a step adds are new to everybody. */
  lemma NewFileUnknown(s: Store, data: map<nat, Batch>, nextId: nat, x: Segment)
    requires OneSegmentPerId(s) && FreshFiles(s, data, nextId) && x.id in data
    ensures !Known(s, x) && x.id !in s.contents
  {
  }

  /** Adding fresh files does not disturb a prepared merge. */
  lemma MergeReadyGrows(s: Store, t: Store, data: map<nat, Batch>, name: TableName, p: Plan)
    requires MergeReady(s, name, p) && name in t.tables && s.version <= t.version
    requires t.contents == s.contents + data && (forall id :: id in data ==> id !in s.contents)
    requires t.tables[name].tombstones == s.tables[name].tombstones
    ensures MergeReady(t, name, p)
  {
    MergeRowsGrow(s.contents, data, p);
  }

  lemma MergeRowsGrow(contents: map<nat, Batch>, data: map<nat, Batch>, p: Plan)
    requires forall id :: id in data ==> id !in contents
    requires forall x :: x in p.inputs || x in p.outputs ==> x.id in contents
    requires MergeKeepsRows(contents, p)
    ensures MergeKeepsRows(contents + data, p)
  {
    forall r: Row ensures Sum(p.inputs, RowsIn(contents + data, r)) == Sum(p.outputs, RowsIn(contents + data, r)) {
      SumCongruent(p.inputs, RowsIn(contents, r), RowsIn(contents + data, r));
      SumCongruent(p.outputs, RowsIn(contents, r), RowsIn(contents + data, r));
    }
  }

  lemma FlushKnown(s: Store, t: Store, outs: map<TableName, set<nat>>, data: map<nat, Batch>, nextId: nat, x: Segment)
    requires FlushCommit(s, t, outs, data, nextId) && Known(t, x)
    ensures Known(s, x) || (x.id in data && x.seqNo == t.version)
  {
    if exists n :: n in t.tables && x in t.tables[n].segments {
      var n :| n in t.tables && x in t.tables[n].segments;
      if x in s.tables[n].segments {
        assert Known(s, x);
      } else {
        assert n in outs && x.id in outs[n] && outs[n] <= data.Keys;
      }
    } else {
      assert Known(s, x);
    }
  }

  lemma FlushSegments(s: Store, t: Store, outs: map<TableName, set<nat>>, data: map<nat, Batch>, nextId: nat)
    requires SegmentInv(s) && FlushCommit(s, t, outs, data, nextId)
    ensures SegmentInv(t)
  {
    FlushIds(s, t, outs, data, nextId);
    FlushOutputs(s, t, outs, data, nextId);
    FlushPrepared(s, t, outs, data, nextId);
    FlushStamps(s, t, outs, data, nextId);
  }

  lemma FlushOutputs(s: Store, t: Store, outs: map<TableName, set<nat>>, data: map<nat, Batch>, nextId: nat)
    requires SegmentInv(s) && FlushCommit(s, t, outs, data, nextId)
    ensures OutputsUnpublished(t)
  {
    assert forall c, x :: Output(t, c, x) <==> Output(s, c, x);
    forall c, x, n | Output(t, c, x) && n in t.tables ensures x !in t.tables[n].segments {
      assert Output(s, c, x);
      assert Known(s, x);
      if n in outs && x.id in outs[n] { NewFileUnknown(s, data, nextId, x); }
    }
  }

  lemma FlushPrepared(s: Store, t: Store, outs: map<TableName, set<nat>>, data: map<nat, Batch>, nextId: nat)
    requires SegmentInv(s) && FlushCommit(s, t, outs, data, nextId)
    ensures PreparedReady(t)
  {
    forall id | id in data ensures id !in s.contents { }
    forall c, i | c in t.prepared && 0 <= i < |t.prepared[c].plans|
      ensures MergeReady(t, t.prepared[c].name, t.prepared[c].plans[i])
    {
      MergeReadyGrows(s, t, data, s.prepared[c].name, s.prepared[c].plans[i]);
    }
  }

  lemma FlushIds(s: Store, t: Store, outs: map<TableName, set<nat>>, data: map<nat, Batch>, nextId: nat)
    requires SegmentInv(s) && FlushCommit(s, t, outs, data, nextId)
    ensures OneSegmentPerId(t)
  {
    forall x | Known(t, x) ensures x.id < t.nextId {
      FlushKnown(s, t, outs, data, nextId, x);
    }
    forall x, y | Known(t, x) && Known(t, y) && x.id == y.id ensures x == y {
      FlushKnown(s, t, outs, data, nextId, x);
      FlushKnown(s, t, outs, data, nextId, y);
    }
  }

  lemma FlushStamps(s: Store, t: Store, outs: map<TableName, set<nat>>, data: map<nat, Batch>, nextId: nat)
    requires SegmentInv(s) && FlushCommit(s, t, outs, data, nextId)
    ensures Stamped(t)
  {
    forall n, x | n in t.tables && x in t.tables[n].segments
      ensures x.seqNo <= t.version && x.id in t.contents
    {
      if x !in s.tables[n].segments { assert x.id in outs[n] && outs[n] <= data.Keys; }
    }
  }

  lemma DeleteSegments(s: Store, t: Store, d: nat)
    requires SegmentInv(s) && DeleteCommit(s, t, d)
    ensures SegmentInv(t)
  {
    DeleteStamps(s, t, d);
    DeletePrepared(s, t, d);
    forall n | n in t.tables ensures t.tables[n].segments == s.tables[n].segments { }
    assert forall x :: Known(t, x) ==> Known(s, x);
    assert forall c, x :: Output(t, c, x) <==> Output(s, c, x);
    assert OneSegmentPerId(t) && OutputsUnpublished(t);
  }

  lemma DeleteStamps(s: Store, t: Store, d: nat)
    requires SegmentInv(s) && DeleteCommit(s, t, d)
    ensures Stamped(t)
  {
  }

  lemma DeletePrepared(s: Store, t: Store, d: nat)
    requires SegmentInv(s) && DeleteCommit(s, t, d)
    ensures PreparedReady(t)
  {
  }

  lemma PrepareKnown(s: Store, t: Store, c: nat, p: Prepared, data: map<nat, Batch>, nextId: nat, x: Segment)
    requires CompactPrepare(s, t, c, p, data, nextId) && Known(t, x)
    ensures Known(s, x) || (x.id in data && exists i :: 0 <= i < |p.plans| && x in p.plans[i].outputs)
  {
    if exists n :: n in t.tables && x in t.tables[n].segments {
      assert Known(s, x);
    } else {
      var e, i :| e in t.prepared && 0 <= i < |t.prepared[e].plans| && InPlan(t.prepared[e].plans[i], x);
      if e != c {
        assert Known(s, x);
      } else {
        assert p.plans[i].inputs <= s.tables[p.name].segments;
        assert x in p.plans[i].outputs;
        assert x.id in Ids(p.plans[i].outputs);
      }
    }
  }

  lemma PrepareIds(s: Store, t: Store, c: nat, p: Prepared, data: map<nat, Batch>, nextId: nat)
    requires SegmentInv(s) && CompactPrepare(s, t, c, p, data, nextId)
    ensures OneSegmentPerId(t)
  {
    forall x | Known(t, x) ensures x.id < t.nextId {
      PrepareKnown(s, t, c, p, data, nextId, x);
    }
    forall x, y | Known(t, x) && Known(t, y) && x.id == y.id ensures x == y {
      PrepareKnown(s, t, c, p, data, nextId, x);
      PrepareKnown(s, t, c, p, data, nextId, y);
      if x.id in data {
        var i :| 0 <= i < |p.plans| && x in p.plans[i].outputs;
        var j :| 0 <= j < |p.plans| && y in p.plans[j].outputs;
        assert x.id in Ids(p.plans[i].outputs) && y.id in Ids(p.plans[j].outputs);
        assert i == j;
        assert p.plans[i].outputs == Stamp(Ids(p.plans[i].outputs), p.plans[i].seqNo);
      }
    }
  }

  lemma PrepareReady(s: Store, t: Store, c: nat, p: Prepared, data: map<nat, Batch>, nextId: nat, i: nat)
    requires SegmentInv(s) && CompactPrepare(s, t, c, p, data, nextId) && i < |p.plans|
    ensures MergeReady(t, p.name, p.plans[i])
  {
    var plan := p.plans[i];
    assert ValidPlan(s.tables[p.name], plan);
    var m :| m in plan.inputs && m.seqNo == plan.seqNo;
    assert m in s.tables[p.name].segments;
    assert plan.outputs == Stamp(Ids(plan.outputs), plan.seqNo);
    forall x | x in plan.outputs ensures x.seqNo == plan.seqNo && x.id in t.contents {
      assert x.id in Ids(plan.outputs);
    }
  }

  lemma PrepareSegments(s: Store, t: Store, c: nat, p: Prepared, data: map<nat, Batch>, nextId: nat)
    requires SegmentInv(s) && CompactPrepare(s, t, c, p, data, nextId)
    ensures SegmentInv(t)
  {
    PrepareIds(s, t, c, p, data, nextId);
    forall id | id in data ensures id !in s.contents { }
    forall e, i | e in t.prepared && 0 <= i < |t.prepared[e].plans|
      ensures MergeReady(t, t.prepared[e].name, t.prepared[e].plans[i])
    {
      if e == c {
        PrepareReady(s, t, c, p, data, nextId, i);
      } else {
        MergeReadyGrows(s, t, data, s.prepared[e].name, s.prepared[e].plans[i]);
      }
    }
    PrepareOutputs(s, t, c, p, data, nextId);
  }

  lemma PrepareOutputs(s: Store, t: Store, c: nat, p: Prepared, data: map<nat, Batch>, nextId: nat)
    requires SegmentInv(s) && CompactPrepare(s, t, c, p, data, nextId)
    ensures OutputsUnpublished(t)
  {
    forall e, x | Output(t, e, x)
      ensures e != c ==> Output(s, e, x) && Known(s, x)
      ensures e == c ==> !Known(s, x)
    {
      var i :| 0 <= i < |t.prepared[e].plans| && x in t.prepared[e].plans[i].outputs;
      if e != c {
        assert InPlan(s.prepared[e].plans[i], x);
      } else {
        assert x.id in Ids(p.plans[i].outputs);
        NewFileUnknown(s, data, nextId, x);
      }
    }
  }

  lemma {:induction false} PlansMember(plans: seq<Plan>, x: Segment)
    ensures x in Inputs(plans) <==> exists i :: 0 <= i < |plans| && x in plans[i].inputs
    ensures x in Outputs(plans) <==> exists i :: 0 <= i < |plans| && x in plans[i].outputs
    decreases |plans|
  {
    if plans == [] {
    } else {
      var rest := plans[1..];
      PlansMember(rest, x);
      if x in Inputs(rest) { var i :| 0 <= i < |rest| && x in rest[i].inputs; assert plans[i + 1] == rest[i]; }
      if x in Outputs(rest) { var i :| 0 <= i < |rest| && x in rest[i].outputs; assert plans[i + 1] == rest[i]; }
      if exists i :: 0 < i < |plans| && x in plans[i].inputs {
        var i :| 0 < i < |plans| && x in plans[i].inputs;
        assert rest[i - 1] == plans[i];
      }
      if exists i :: 0 < i < |plans| && x in plans[i].outputs {
        var i :| 0 < i < |plans| && x in plans[i].outputs;
        assert rest[i - 1] == plans[i];
      }
    }
  }

  /** At a merge's commit the table is exactly what it keeps plus the merge's inputs. */
  lemma InputsStillThere(s: Store, c: nat)
    requires SegmentInv(s) && c in s.prepared && s.prepared[c].name in s.tables
    requires Ids(Inputs(s.prepared[c].plans)) <= Ids(s.tables[s.prepared[c].name].segments)
    ensures Inputs(s.prepared[c].plans) <= s.tables[s.prepared[c].name].segments
  {
    var plans, tab := s.prepared[c].plans, s.tables[s.prepared[c].name];
    forall x | x in Inputs(plans) ensures x in tab.segments {
      PlansMember(plans, x);
      var i :| 0 <= i < |plans| && x in plans[i].inputs;
      assert InPlan(plans[i], x);
      assert Known(s, x);
      assert x.id in Ids(Inputs(plans));
      var y :| y in tab.segments && y.id == x.id;
      assert Known(s, y);
    }
  }

  lemma CommitKnown(s: Store, t: Store, c: nat, x: Segment)
    requires CompactCommit(s, t, c) && Known(t, x)
    ensures Known(s, x)
  {
    var p := s.prepared[c];
    if exists n :: n in t.tables && x in t.tables[n].segments {
      var n :| n in t.tables && x in t.tables[n].segments;
      if x !in s.tables[n].segments {
        PlansMember(p.plans, x);
        var i :| 0 <= i < |p.plans| && x in p.plans[i].outputs;
        assert InPlan(p.plans[i], x);
      }
    } else {
      var e, i :| e in t.prepared && 0 <= i < |t.prepared[e].plans| && InPlan(t.prepared[e].plans[i], x);
      assert e in s.prepared && s.prepared[e] == t.prepared[e];
    }
  }

  lemma CommitSegments(s: Store, t: Store, c: nat)
    requires SegmentInv(s) && CompactCommit(s, t, c)
    ensures SegmentInv(t)
  {
    var p := s.prepared[c];
    forall x | Known(t, x) ensures Known(s, x) { CommitKnown(s, t, c, x); }
    forall e, x, n | Output(t, e, x) && n in t.tables ensures x !in t.tables[n].segments {
      assert Output(s, e, x);
      PlansMember(p.plans, x);
      assert !Output(s, c, x);
    }
    assert forall e, x :: Output(t, e, x) ==> Output(s, e, x);
    forall n, x | n in t.tables && x in t.tables[n].segments
      ensures x.seqNo <= t.version && x.id in t.contents
    {
      if x !in s.tables[n].segments {
        PlansMember(p.plans, x);
        var i :| 0 <= i < |p.plans| && x in p.plans[i].outputs;
        assert MergeReady(s, p.name, p.plans[i]);
      }
    }
    forall e, i | e in t.prepared && 0 <= i < |t.prepared[e].plans|
      ensures MergeReady(t, t.prepared[e].name, t.prepared[e].plans[i])
    {
      assert e in s.prepared && MergeReady(s, s.prepared[e].name, s.prepared[e].plans[i]);
    }
  }

  lemma ConflictSegments(s: Store, t: Store, c: nat)
    requires SegmentInv(s) && CompactConflict(s, t, c)
    ensures SegmentInv(t)
  {
    assert forall x :: Known(t, x) ==> Known(s, x);
    assert forall e, x :: Output(t, e, x) ==> Output(s, e, x);
  }

  // ── Deletes ────────────────────────────────────────────────────────────────

  lemma DeleteStartKeeps(s: Store, t: Store, d: nat, name: TableName, pred: nat)
    requires Inv(s) && DeleteStart(s, t, d, name, pred)
    ensures DeleteInv(t)
  {
    forall i | 0 <= i < |s.log| && s.log[i].batches != []
      ensures s.log[i].ticket == s.ticket ==> s.ticket in t.deletes[d].waits
    {
      if s.log[i].ticket == s.ticket { UnderSome(s.log, s.ticket, i); }
    }
  }

  lemma StepSegments(s: Store, t: Store, a: Action)
    requires SegmentInv(s) && Step(s, t, a)
    ensures SegmentInv(t)
  {
    match a {
      case ACreate(name) => CreateSegments(s, t, name);
      case AFlushCommit(outs, data, nextId) => FlushSegments(s, t, outs, data, nextId);
      case ADeleteCommit(d) => DeleteSegments(s, t, d);
      case ACompactPrepare(c, p, data, nextId) => PrepareSegments(s, t, c, p, data, nextId);
      case ACompactCommit(c) => CommitSegments(s, t, c);
      case ACompactConflict(c) => ConflictSegments(s, t, c);
      case _ => SegmentFrame(s, t);
    }
  }

  lemma StepTickets(s: Store, t: Store, a: Action)
    requires TicketInv(s) && Step(s, t, a)
    ensures TicketInv(t)
  {
    match a {
      case AWrite(batches) => WriteTickets(s, t, batches);
      case ATakeWork => TakeTickets(s, t);
      case AFlushCommit(outs, data, nextId) => FlushTickets(s, t, outs, data, nextId);
      case AFlushFail => FailTickets(s, t);
      case AResolve => ResolveTickets(s, t);
      case _ => TicketFrame(s, t);
    }
  }

  ghost predicate DeletesStarted(s: Store)
  {
    DeleteInv(s) && forall d :: d in s.deletes ==> s.deletes[d].after <= |s.log|
  }

  lemma StepDeletes(s: Store, t: Store, a: Action)
    requires Inv(s) && Step(s, t, a)
    ensures DeletesStarted(t)
  {
    if a.ADeleteStart? { DeleteStartKeeps(s, t, a.d, a.target, a.pred); }
  }

  lemma StepKeeps(s: Store, t: Store, a: Action)
    requires Inv(s) && Step(s, t, a)
    ensures Inv(t)
  {
    StepSegments(s, t, a);
    StepTickets(s, t, a);
    StepDeletes(s, t, a);
  }

  // ── What a reader sees, step by step ───────────────────────────────────────

  lemma DeadFrame(s: Store, t: Store, tombstones: set<Tombstone>, seqNo: nat, r: Row)
    requires s.covers == t.covers
    ensures Dead(s, tombstones, seqNo, r) <==> Dead(t, tombstones, seqNo, r)
  {
  }

  /** Fresh files do not change what old segments show. */
  lemma LiveGrows(s: Store, t: Store, tab: Table, data: map<nat, Batch>, r: Row)
    requires t.covers == s.covers && t.contents == s.contents + data
    requires forall id :: id in data ==> id !in s.contents
    requires forall x :: x in tab.segments ==> x.id in s.contents
    ensures Live(t, tab, r) == Live(s, tab, r)
  {
    forall x | x in tab.segments
      ensures LiveIn(s, tab.tombstones, r)(x) == LiveIn(t, tab.tombstones, r)(x)
    {
      DeadFrame(s, t, tab.tombstones, x.seqNo, r);
    }
    SumCongruent(tab.segments, LiveIn(s, tab.tombstones, r), LiveIn(t, tab.tombstones, r));
  }

  lemma {:induction false} SumStamp(ids: set<nat>, seqNo: nat, f: Segment -> nat, g: nat -> nat)
    requires forall id :: id in ids ==> f(Segment(id, seqNo)) == g(id)
    ensures Sum(Stamp(ids, seqNo), f) == Sum(ids, g)
    decreases |ids|
  {
    if ids == {} {
      assert Stamp(ids, seqNo) == {};
    } else {
      var id :| id in ids;
      var x := Segment(id, seqNo);
      assert x in Stamp(ids, seqNo);
      SumRemove(ids, g, id);
      SumRemove(Stamp(ids, seqNo), f, x);
      assert Stamp(ids, seqNo) - {x} == Stamp(ids - {id}, seqNo);
      SumStamp(ids - {id}, seqNo, f, g);
    }
  }

  /** The flushed segments show exactly the buffered rows: no tombstone is newer than them. */
  lemma FlushShows(
    s: Store, t: Store, outs: map<TableName, set<nat>>, data: map<nat, Batch>, nextId: nat, name: TableName, r: Row)
    requires Inv(s) && FlushCommit(s, t, outs, data, nextId) && name in s.tables
    ensures Live(t, t.tables[name], r) == Live(s, s.tables[name], r) + Buffer(s.inFlight, name, r)
  {
    var v, tab := t.version, s.tables[name];
    forall id | id in data ensures id !in s.contents { }
    LiveGrows(s, t, tab, data, r);
    if name in outs {
      var f := LiveIn(t, tab.tombstones, r);
      var g := (id: nat) => if id in data then data[id][r] else 0;
      var added := Stamp(outs[name], v);
      forall id | id in outs[name] ensures f(Segment(id, v)) == g(id) {
        assert id in data;
        assert !Dead(t, tab.tombstones, v, r);
      }
      SumStamp(outs[name], v, f, g);
      SameRowsSum(s.flusher.taken[name], outs[name], data, g, r);
      assert tab.segments !! added;
      SumUnion(tab.segments, added, f);
    }
  }

  lemma SameRowsSum(batches: seq<Batch>, outs: set<nat>, data: map<nat, Batch>, g: nat -> nat, r: Row)
    requires SameRows(batches, outs, data)
    requires forall id :: id in outs ==> g(id) == if id in data then data[id][r] else 0
    ensures Sum(outs, g) == Copies(batches, r)
  {
    SumCongruent(outs, id => if id in data then data[id][r] else 0, g);
  }

  /** A delete hides the matching rows of every committed segment, and nothing else. */
  lemma DeleteShows(s: Store, t: Store, d: nat, name: TableName, r: Row)
    requires Inv(s) && DeleteCommit(s, t, d) && name in s.tables
    ensures Live(t, t.tables[name], r) ==
            if name == s.deletes[d].name && s.covers(s.deletes[d].pred, r) then 0 else Live(s, s.tables[name], r)
  {
    var del, tab := s.deletes[d], s.tables[name];
    var after := t.tables[name];
    var f, g := LiveIn(s, tab.tombstones, r), LiveIn(t, after.tombstones, r);
    if name == del.name {
      var tomb := Tombstone(t.version, del.pred);
      if s.covers(del.pred, r) {
        forall x | x in after.segments ensures g(x) == 0 {
          assert tomb in after.tombstones && tomb.seqNo > x.seqNo;
          assert Dead(t, after.tombstones, x.seqNo, r);
        }
        SumZero(after.segments, g);
      } else {
        forall x | x in after.segments ensures f(x) == g(x) {
          assert Dead(s, tab.tombstones, x.seqNo, r) <==> Dead(t, after.tombstones, x.seqNo, r);
        }
        SumCongruent(after.segments, f, g);
      }
    } else {
      forall x | x in after.segments ensures f(x) == g(x) {
        DeadFrame(s, t, tab.tombstones, x.seqNo, r);
      }
      SumCongruent(after.segments, f, g);
    }
  }

  /** One merge plan: inputs and outputs show the same rows under every tombstone. */
  lemma PlanShows(s: Store, name: TableName, p: Plan, r: Row)
    requires MergeReady(s, name, p)
    ensures var f := LiveIn(s, s.tables[name].tombstones, r); Sum(p.inputs, f) == Sum(p.outputs, f)
  {
    var tombs := s.tables[name].tombstones;
    var f := LiveIn(s, tombs, r);
    forall x | x in p.inputs ensures Dead(s, tombs, x.seqNo, r) <==> Dead(s, tombs, p.seqNo, r) {
      if Dead(s, tombs, x.seqNo, r) {
        var d :| d in tombs && d.seqNo > x.seqNo && s.covers(d.pred, r);
        assert d.seqNo > p.seqNo;
      }
      if Dead(s, tombs, p.seqNo, r) {
        var d :| d in tombs && d.seqNo > p.seqNo && s.covers(d.pred, r);
        assert d.seqNo > x.seqNo;
      }
    }
    if Dead(s, tombs, p.seqNo, r) {
      SumZero(p.inputs, f);
      SumZero(p.outputs, f);
    } else {
      SumCongruent(p.inputs, f, RowsIn(s.contents, r));
      SumCongruent(p.outputs, f, RowsIn(s.contents, r));
    }
  }

  lemma {:induction false} PlansShow(s: Store, name: TableName, plans: seq<Plan>, r: Row)
    requires name in s.tables && Disjoint(plans)
    requires forall i :: 0 <= i < |plans| ==> MergeReady(s, name, plans[i])
    ensures var f := LiveIn(s, s.tables[name].tombstones, r); Sum(Inputs(plans), f) == Sum(Outputs(plans), f)
    decreases |plans|
  {
    if plans == [] {
    } else {
      var rest, f := plans[1..], LiveIn(s, s.tables[name].tombstones, r);
      assert forall i :: 0 <= i < |rest| ==> rest[i] == plans[i + 1];
      PlansShow(s, name, rest, r);
      PlanShows(s, name, plans[0], r);
      FirstPlanApart(plans);
      SumUnion(plans[0].inputs, Inputs(rest), f);
      SumUnion(plans[0].outputs, Outputs(rest), f);
    }
  }

  lemma FirstPlanApart(plans: seq<Plan>)
    requires plans != [] && Disjoint(plans)
    ensures plans[0].inputs !! Inputs(plans[1..]) && plans[0].outputs !! Outputs(plans[1..])
  {
    var rest := plans[1..];
    forall x | x in plans[0].inputs ensures x !in Inputs(rest) {
      PlansMember(rest, x);
      assert forall i :: 0 <= i < |rest| ==> rest[i] == plans[i + 1];
    }
    forall x | x in plans[0].outputs ensures x !in Outputs(rest) {
      PlansMember(rest, x);
      assert x.id in Ids(plans[0].outputs);
      forall i | 0 <= i < |rest| ensures x !in rest[i].outputs {
        assert rest[i] == plans[i + 1] && x.id !in Ids(plans[i + 1].outputs);
      }
    }
  }

  /** Compaction is invisible: a merge's commit shows the same live rows. */
  lemma CompactShows(s: Store, t: Store, c: nat, name: TableName, r: Row)
    requires Inv(s) && CompactCommit(s, t, c) && name in s.tables
    ensures Live(t, t.tables[name], r) == Live(s, s.tables[name], r)
  {
    var p, tab, after := s.prepared[c], s.tables[name], t.tables[name];
    var f, g := LiveIn(s, tab.tombstones, r), LiveIn(t, after.tombstones, r);
    forall x | x in after.segments ensures f(x) == g(x) {
      DeadFrame(s, t, tab.tombstones, x.seqNo, r);
    }
    SumCongruent(after.segments, f, g);
    if name == p.name {
      var ins, outs := Inputs(p.plans), Outputs(p.plans);
      var kept := set x | x in tab.segments && x.id !in Ids(ins);
      InputsStillThere(s, c);
      forall x | x in tab.segments ensures x in kept || x in ins {
        if x.id in Ids(ins) {
          var y :| y in ins && y.id == x.id;
          assert Known(s, x) && Known(s, y);
        }
      }
      assert tab.segments == kept + ins;
      assert kept !! ins by {
        forall x | x in ins ensures x !in kept { assert x.id in Ids(ins); }
      }
      assert kept !! outs by {
        forall x | x in outs ensures x !in kept {
          PlansMember(p.plans, x);
          assert Output(s, c, x);
        }
      }
      PlansShow(s, name, p.plans, r);
      SumUnion(kept, ins, f);
      SumUnion(kept, outs, f);
    }
  }

  /** What each step does to what a reader sees of table `name`. Flushing, compacting and
      resolving are invisible; a write appears at once; a failed flush withdraws exactly its own
      rows; a delete takes the matching committed rows and spares what is still buffered. */
  ghost function Effect(s: Store, a: Action, name: TableName, r: Row): int
    requires name in s.tables && (a.ADeleteCommit? ==> a.d in s.deletes)
  {
    match a
    case AWrite(batches) => Visible(s, name, r) + WriteCopies(batches, name, r)
    case AFlushFail => Visible(s, name, r) - Buffer(s.inFlight, name, r)
    case ADeleteCommit(d) =>
      if name == s.deletes[d].name && s.covers(s.deletes[d].pred, r)
      then Buffer(s.inFlight, name, r) + Buffer(s.pending, name, r)
      else Visible(s, name, r)
    case _ => Visible(s, name, r)
  }

  lemma SameLive(s: Store, t: Store, name: TableName, r: Row)
    requires name in s.tables && name in t.tables && t.tables[name] == s.tables[name]
    requires t.contents == s.contents && t.covers == s.covers
    ensures Live(t, t.tables[name], r) == Live(s, s.tables[name], r)
  {
    var tab := s.tables[name];
    forall x | x in tab.segments
      ensures LiveIn(s, tab.tombstones, r)(x) == LiveIn(t, tab.tombstones, r)(x)
    {
      DeadFrame(s, t, tab.tombstones, x.seqNo, r);
    }
    SumCongruent(tab.segments, LiveIn(s, tab.tombstones, r), LiveIn(t, tab.tombstones, r));
  }

  /** The steps that write nothing a reader can see. */
  lemma QuietVisible(s: Store, t: Store, a: Action, name: TableName, r: Row)
    requires Inv(s) && Step(s, t, a) && name in s.tables
    requires a.ACreate? || a.ATakeWork? || a.AResolve? || a.ADeleteStart? || a.ADeleteAbort? || a.ACompactConflict?
    ensures name in t.tables && Visible(t, name, r) == Visible(s, name, r)
  {
    SameLive(s, t, name, r);
  }

  lemma BufferVisible(s: Store, t: Store, a: Action, name: TableName, r: Row)
    requires Inv(s) && Step(s, t, a) && name in s.tables
    requires a.AWrite? || a.AFlushFail?
    ensures name in t.tables && Visible(t, name, r) == Effect(s, a, name, r)
  {
    SameLive(s, t, name, r);
    match a {
      case AWrite(batches) => PushAllCopies(s.pending, batches, name, r);
      case AFlushFail => assert t.inFlight == map[];
    }
  }

  lemma FlushVisible(s: Store, t: Store, a: Action, name: TableName, r: Row)
    requires Inv(s) && Step(s, t, a) && name in s.tables && a.AFlushCommit?
    ensures name in t.tables && Visible(t, name, r) == Visible(s, name, r)
  {
    FlushShows(s, t, a.outs, a.data, a.nextId, name, r);
    assert t.inFlight == map[];
  }

  lemma DeleteVisible(s: Store, t: Store, a: Action, name: TableName, r: Row)
    requires Inv(s) && Step(s, t, a) && name in s.tables && a.ADeleteCommit?
    ensures name in t.tables && Visible(t, name, r) == Effect(s, a, name, r)
  {
    DeleteShows(s, t, a.d, name, r);
  }

  lemma CompactVisible(s: Store, t: Store, a: Action, name: TableName, r: Row)
    requires Inv(s) && Step(s, t, a) && name in s.tables && (a.ACompactPrepare? || a.ACompactCommit?)
    ensures name in t.tables && Visible(t, name, r) == Visible(s, name, r)
  {
    if a.ACompactPrepare? {
      forall id | id in a.data ensures id !in s.contents { }
      LiveGrows(s, t, s.tables[name], a.data, r);
    } else {
      CompactShows(s, t, a.c, name, r);
    }
  }

  /** The central theorem: every step changes what readers see by exactly its effect. */
  lemma StepVisible(s: Store, t: Store, a: Action, name: TableName, r: Row)
    requires Inv(s) && Step(s, t, a) && name in s.tables
    ensures name in t.tables && Visible(t, name, r) == Effect(s, a, name, r)
  {
    match a {
      case AWrite(_) => BufferVisible(s, t, a, name, r);
      case AFlushFail => BufferVisible(s, t, a, name, r);
      case AFlushCommit(_, _, _) => FlushVisible(s, t, a, name, r);
      case ADeleteCommit(_) => DeleteVisible(s, t, a, name, r);
      case ACompactPrepare(_, _, _, _) => CompactVisible(s, t, a, name, r);
      case ACompactCommit(_) => CompactVisible(s, t, a, name, r);
      case _ => QuietVisible(s, t, a, name, r);
    }
  }

  // ── Whole runs ─────────────────────────────────────────────────────────────

  lemma {:induction false} RunKeeps(states: seq<Store>, actions: seq<Action>, i: nat)
    requires Run(states, actions) && i < |states|
    ensures Inv(states[i])
    decreases i
  {
    if i == 0 {
      InitInv(states[0]);
    } else {
      RunKeeps(states, actions, i - 1);
      StepKeeps(states[i - 1], states[i], actions[i - 1]);
    }
  }

  /** Copies of `r` ever written to `name`. */
  function Tally(log: seq<Write>, name: TableName, r: Row): nat
  {
    if log == [] then 0
    else Tally(log[..|log| - 1], name, r) + WriteCopies(log[|log| - 1].batches, name, r)
  }

  /** Writes only name existing tables, so a new table starts empty. */
  ghost predicate NamesKnown(s: Store)
  {
    forall i, j :: 0 <= i < |s.log| && 0 <= j < |s.log[i].batches| ==> s.log[i].batches[j].0 in s.tables
  }

  lemma NamesStayKnown(s: Store, t: Store, a: Action)
    requires NamesKnown(s) && Step(s, t, a)
    ensures NamesKnown(t) && s.tables.Keys <= t.tables.Keys
  {
    if a.AWrite? {
      forall i, j | 0 <= i < |t.log| && 0 <= j < |t.log[i].batches|
        ensures t.log[i].batches[j].0 in t.tables
      {
        if i < |s.log| { assert t.log[i] == s.log[i]; }
      }
    }
  }

  lemma {:induction false} NoCopies(batches: seq<(TableName, Batch)>, name: TableName, r: Row)
    requires forall j :: 0 <= j < |batches| ==> batches[j].0 != name
    ensures WriteCopies(batches, name, r) == 0
  {
    if batches == [] {
    } else {
      NoCopies(batches[1..], name, r);
    }
  }

  lemma {:induction false} NoTally(log: seq<Write>, name: TableName, r: Row)
    requires forall i, j :: 0 <= i < |log| && 0 <= j < |log[i].batches| ==> log[i].batches[j].0 != name
    ensures Tally(log, name, r) == 0
    ensures forall k: nat :: WriteCopies(Under(log, k), name, r) == 0
  {
    if log == [] {
    } else {
      var prior, last := log[..|log| - 1], log[|log| - 1];
      forall i, j | 0 <= i < |prior| && 0 <= j < |prior[i].batches| ensures prior[i].batches[j].0 != name {
        assert prior[i] == log[i];
      }
      NoTally(prior, name, r);
      NoCopies(last.batches, name, r);
      forall k: nat ensures WriteCopies(Under(log, k), name, r) == 0 {
        WriteCopiesAppend(Under(prior, k), if last.ticket == k then last.batches else [], name, r);
      }
    }
  }

  lemma {:induction false} WriteCopiesAppend(
    x: seq<(TableName, Batch)>, y: seq<(TableName, Batch)>, name: TableName, r: Row)
    ensures WriteCopies(x + y, name, r) == WriteCopies(x, name, r) + WriteCopies(y, name, r)
    decreases |x|
  {
    if x == [] {
      assert x + y == y;
    } else {
      assert (x + y)[1..] == x[1..] + y;
      WriteCopiesAppend(x[1..], y, name, r);
    }
  }

  /** The copies the buffer of ticket `k` holds. */
  lemma GroupedCopies(log: seq<Write>, k: nat, name: TableName, r: Row)
    ensures Buffer(Grouped(log, k), name, r) == WriteCopies(Under(log, k), name, r)
  {
    PushAllCopies(map[], Under(log, k), name, r);
  }

  lemma {:induction false} RunNames(states: seq<Store>, actions: seq<Action>, i: nat)
    requires Run(states, actions) && i < |states|
    ensures NamesKnown(states[i])
    decreases i
  {
    if i > 0 {
      RunNames(states, actions, i - 1);
      NamesStayKnown(states[i - 1], states[i], actions[i - 1]);
    }
  }

  /** Copies withdrawn by failed flushes among the first `i` steps. */
  function Withdrawn(states: seq<Store>, actions: seq<Action>, i: nat, name: TableName, r: Row): nat
    requires i <= |actions| && |states| == |actions| + 1
  {
    if i == 0 then 0
    else
      Withdrawn(states, actions, i - 1, name, r)
      + (if actions[i - 1].AFlushFail? then Buffer(states[i - 1].inFlight, name, r) else 0)
  }

  /** No delete of `name` covering `r` commits among the first `i` steps. */
  ghost predicate Spared(states: seq<Store>, actions: seq<Action>, i: nat, name: TableName, r: Row)
    requires i <= |actions| && |states| == |actions| + 1
  {
    forall j :: 0 <= j < i && actions[j].ADeleteCommit? && actions[j].d in states[j].deletes ==>
      var del := states[j].deletes[actions[j].d];
      del.name != name || !states[j].covers(del.pred, r)
  }

  /** A table that does not exist yet has nothing buffered and nothing written. */
  lemma NewTableEmpty(s: Store, t: Store, name: TableName, r: Row)
    requires Inv(s) && NamesKnown(s) && Create(s, t, name)
    ensures Visible(t, name, r) == 0 && Tally(s.log, name, r) == 0
    ensures Buffer(s.inFlight, name, r) == 0
  {
    UnwrittenEmpty(s, name, r);
  }

  lemma UnwrittenEmpty(s: Store, name: TableName, r: Row)
    requires Inv(s) && NamesKnown(s) && name !in s.tables
    ensures Tally(s.log, name, r) == 0 && Buffer(s.pending, name, r) == 0 && Buffer(s.inFlight, name, r) == 0
  {
    NoTally(s.log, name, r);
    GroupedCopies(s.log, s.ticket, name, r);
    if s.flusher.Working? { GroupedCopies(s.log, s.flusher.ticket, name, r); }
  }

  /** Conservation over every run: whatever the flusher, compactions and other tables' deletes
      did, a row is visible as often as it was written, less what failed flushes withdrew. */
  lemma {:induction false} RunConservesRows(states: seq<Store>, actions: seq<Action>, i: nat, name: TableName, r: Row)
    requires Run(states, actions) && i <= |actions| && Spared(states, actions, i, name, r)
    ensures name in states[i].tables ==>
              Visible(states[i], name, r) + Withdrawn(states, actions, i, name, r) == Tally(states[i].log, name, r)
    ensures name !in states[i].tables ==> Withdrawn(states, actions, i, name, r) == 0
    decreases i
  {
    if i > 0 {
      var s, t, a := states[i - 1], states[i], actions[i - 1];
      RunConservesRows(states, actions, i - 1, name, r);
      RunKeeps(states, actions, i - 1);
      RunNames(states, actions, i - 1);
      NamesStayKnown(s, t, a);
      if name in s.tables {
        StepVisible(s, t, a, name, r);
        StepTally(s, t, a, name, r);
      } else {
        UnwrittenEmpty(s, name, r);
        if name in t.tables { NewTableEmpty(s, t, name, r); }
      }
    }
  }

  lemma StepTally(s: Store, t: Store, a: Action, name: TableName, r: Row)
    requires Step(s, t, a)
    ensures Tally(t.log, name, r) == Tally(s.log, name, r) + (if a.AWrite? then WriteCopies(a.batches, name, r) else 0)
  {
    if a.AWrite? { assert t.log[..|s.log|] == s.log; }
  }

  // ── Acknowledgements ───────────────────────────────────────────────────────

  /** `in_flight` is empty whenever the flusher takes work, so overwriting it loses nothing. */
  lemma NothingInFlightWhenTaken(states: seq<Store>, actions: seq<Action>, i: nat)
    requires Run(states, actions) && i < |actions| && actions[i].ATakeWork?
    ensures states[i].inFlight == map[] && states[i].inFlightTicket == {}
  {
    RunKeeps(states, actions, i);
    assert TakeWork(states[i], states[i + 1]);
  }

  /** A ticket resolves `Acked(v)` exactly when everything written under it was committed, whole,
      by the flush at version `v`; and by no other flush. */
  lemma AcksAreHonest(states: seq<Store>, actions: seq<Action>, i: nat, k: nat, v: nat)
    requires Run(states, actions) && i < |states| && k in states[i].outcomes
    ensures var s := states[i];
            s.outcomes[k] == Acked(v) <==> v in s.flushes && s.flushes[v] == Flush(k, Grouped(s.log, k))
    ensures states[i].outcomes[k].Failed? ==> forall w :: w in states[i].flushes ==> states[i].flushes[w].ticket != k
  {
    RunKeeps(states, actions, i);
  }

  /** What a write's ticket still owes, or got. */
  ghost predicate Settled(s: Store, k: nat)
  {
    || k == s.ticket
    || (!s.flusher.Idle? && s.flusher.ticket == k)
    || k in s.outcomes
  }

  /** All batches of one `write_many` share one fate: all pending, all with the flusher, all in
      the version their ticket was acknowledged with, or all withdrawn. */
  lemma WritesAreAtomic(states: seq<Store>, actions: seq<Action>, i: nat, w: nat)
    requires Run(states, actions) && i < |states| && w < |states[i].log|
    ensures var s := states[i];
            var k := s.log[w].ticket;
            && Settled(s, k)
            && (k == s.ticket ==> s.pending == Grouped(s.log, k))
            && (s.flusher.Working? && s.flusher.ticket == k ==> s.inFlight == Grouped(s.log, k))
            && (k in s.outcomes && s.outcomes[k].Acked? ==> Landed(s, k, s.outcomes[k].version))
    ensures var s := states[i];
            forall name, r :: WriteCopies(s.log[w].batches, name, r) <= Buffer(Grouped(s.log, s.log[w].ticket), name, r)
  {
    RunKeeps(states, actions, i);
    var s := states[i];
    forall name: TableName, r: Row
      ensures WriteCopies(s.log[w].batches, name, r) <= Buffer(Grouped(s.log, s.log[w].ticket), name, r)
    {
      GroupedCopies(s.log, s.log[w].ticket, name, r);
      OneWriteCounts(s.log, w, name, r);
    }
  }

  lemma {:induction false} OneWriteCounts(log: seq<Write>, w: nat, name: TableName, r: Row)
    requires w < |log|
    ensures WriteCopies(log[w].batches, name, r) <= WriteCopies(Under(log, log[w].ticket), name, r)
    decreases |log|
  {
    var prior, last, k := log[..|log| - 1], log[|log| - 1], log[w].ticket;
    WriteCopiesAppend(Under(prior, k), if last.ticket == k then last.batches else [], name, r);
    if w < |log| - 1 {
      assert prior[w] == log[w];
      OneWriteCounts(prior, w, name, r);
    }
  }

  // ── Delete ordering ────────────────────────────────────────────────────────

  /** A ticket that no write before `a` used counts only the writes from `a` on. */
  lemma {:induction false} UnderSuffix(log: seq<Write>, a: nat, k: nat, name: TableName, r: Row)
    requires a <= |log|
    requires forall i :: 0 <= i < a && log[i].ticket == k ==> log[i].batches == []
    ensures WriteCopies(Under(log, k), name, r) == WriteCopies(Under(log[a..], k), name, r)
    decreases |log|
  {
    if |log| > 0 {
      var prior, last := log[..|log| - 1], log[|log| - 1];
      var tail := if last.ticket == k then last.batches else [];
      WriteCopiesAppend(Under(prior, k), tail, name, r);
      forall i | 0 <= i < |prior| ensures prior[i] == log[i] { }
      if a < |log| {
        assert log[a..][..|log| - a - 1] == prior[a..];
        WriteCopiesAppend(Under(prior[a..], k), tail, name, r);
        UnderSuffix(prior, a, k, name, r);
      } else {
        UnderSuffix(prior, a - 1, k, name, r);
        assert prior[a - 1..] == [] == log[a..];
      }
    }
  }

  /** Two tickets hold different writes. */
  lemma {:induction false} TwoTickets(log: seq<Write>, j: nat, k: nat, name: TableName, r: Row)
    requires j != k
    ensures WriteCopies(Under(log, j), name, r) + WriteCopies(Under(log, k), name, r) <= Tally(log, name, r)
  {
    if log != [] {
      var prior, last := log[..|log| - 1], log[|log| - 1];
      TwoTickets(prior, j, k, name, r);
      WriteCopiesAppend(Under(prior, j), if last.ticket == j then last.batches else [], name, r);
      WriteCopiesAppend(Under(prior, k), if last.ticket == k then last.batches else [], name, r);
    }
  }

  lemma AwaitedIsFlushed(s: Store, d: nat, i: nat)
    requires Inv(s) && d in s.deletes && AllAcked(s, s.deletes[d].waits)
    requires i < s.deletes[d].after && i < |s.log| && s.log[i].batches != []
    ensures s.log[i].ticket != s.ticket
    ensures s.flusher.Working? ==> s.log[i].ticket != s.flusher.ticket
  {
  }

  /** Delete ordering: when a delete commits, no row it matches survives unless it was written
      after the delete began — whatever flushes and compactions ran in between. */
  lemma DeleteCoversEarlierWrites(s: Store, t: Store, d: nat, r: Row)
    requires Inv(s) && DeleteCommit(s, t, d) && s.covers(s.deletes[d].pred, r)
    ensures var del := s.deletes[d];
            del.after <= |s.log| && Visible(t, del.name, r) <= Tally(s.log[del.after..], del.name, r)
  {
    var del := s.deletes[d];
    var name, a := del.name, del.after;
    StepVisible(s, t, ADeleteCommit(d), name, r);
    forall i | 0 <= i < a && s.log[i].batches != []
      ensures s.log[i].ticket != s.ticket
      ensures s.flusher.Working? ==> s.log[i].ticket != s.flusher.ticket
    {
      AwaitedIsFlushed(s, d, i);
    }
    UnderSuffix(s.log, a, s.ticket, name, r);
    GroupedCopies(s.log, s.ticket, name, r);
    var other := if s.flusher.Working? then s.flusher.ticket else s.ticket + 1;
    if s.flusher.Working? {
      UnderSuffix(s.log, a, other, name, r);
      GroupedCopies(s.log, other, name, r);
    }
    TwoTickets(s.log[a..], s.ticket, other, name, r);
  }
}
