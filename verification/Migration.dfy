/** A migration job (src/storage/migrate.rs) among writers, the flusher and deletes: what carrying
    segments and swapping the target in does to the rows a reader sees. */
module Migration {
  import opened Arith
  import opened Options
  import opened Order
  import opened Sums
  import opened Manifest

  /** A stored row, by field id. A field it lacks reads as NULL. */
  type Stored = map<nat, Value>

  function Get(row: Stored, id: nat): Value
  {
    if id in row then row[id] else Null
  }

  /** The row as a schema sees it. */
  function View(row: Stored, schema: set<nat>): Stored
  {
    map id | id in schema :: Get(row, id)
  }

  /** `images` is a history variable: what each handled source segment became in the target. */
  datatype Job = Migrating(target: set<nat>, rewrite: bool, images: map<nat, set<Segment>>)

  datatype Store = Store(
    covers: (nat, Stored) -> bool,   // what each delete predicate matches
    looksAt: nat -> set<nat>,        // the fields it reads
    version: nat, nextId: nat,
    used: set<nat>,                  // every field id handed out so far
    schema: set<nat>, segments: set<Segment>, tombstones: set<Tombstone>,
    contents: map<nat, seq<Stored>>,
    pending: seq<Stored>, inFlight: seq<Stored>, flushing: bool,
    job: Option<Job>)

  function Target(j: Job): set<Segment>
  {
    set id, y | id in j.images && y in j.images[id] :: y
  }

  function Gap(s: Store): set<Segment>
    requires s.job.Some?
  {
    set x | x in s.segments && x.id !in s.job.value.images
  }

  // ── What a reader sees ─────────────────────────────────────────────────────

  predicate Dead(s: Store, seqNo: nat, row: Stored)
  {
    exists t :: t in s.tombstones && t.seqNo > seqNo && s.covers(t.pred, row)
  }

  /** Copies of `r` among `rows` read as `schema`. */
  function CopiesAs(rows: seq<Stored>, schema: set<nat>, r: Stored): nat
  {
    if rows == [] then 0
    else CopiesAs(rows[..|rows| - 1], schema, r) + if View(rows[|rows| - 1], schema) == r then 1 else 0
  }

  /** Live copies of `r` among a segment's rows: read as `schema`, less the tombstoned, then shown
      as `as`. */
  function LiveRows(s: Store, rows: seq<Stored>, seqNo: nat, schema: set<nat>, shown: set<nat>, r: Stored): nat
  {
    if rows == [] then 0
    else
      var row := View(rows[|rows| - 1], schema);
      LiveRows(s, rows[..|rows| - 1], seqNo, schema, shown, r) +
      if !Dead(s, seqNo, row) && View(row, shown) == r then 1 else 0
  }

  ghost function LiveIn(s: Store, schema: set<nat>, shown: set<nat>, r: Stored): Segment -> nat
  {
    (x: Segment) => if x.id in s.contents then LiveRows(s, s.contents[x.id], x.seqNo, schema, shown, r) else 0
  }

  /** Copies of `r` in the table, buffered rows included, as its own schema and then `shown`. */
  ghost function Visible(s: Store, shown: set<nat>, r: Stored): nat
  {
    Sum(s.segments, LiveIn(s, s.schema, shown, r)) +
    Buffered(s.inFlight, s.schema, shown, r) + Buffered(s.pending, s.schema, shown, r)
  }

  function Buffered(rows: seq<Stored>, schema: set<nat>, shown: set<nat>, r: Stored): nat
  {
    if rows == [] then 0
    else
      Buffered(rows[..|rows| - 1], schema, shown, r) +
      if View(View(rows[|rows| - 1], schema), shown) == r then 1 else 0
  }

  // ── Steps ──────────────────────────────────────────────────────────────────

  ghost predicate FreshFiles(s: Store, data: map<nat, seq<Stored>>, nextId: nat)
  {
    s.nextId <= nextId && forall id :: id in data ==> s.nextId <= id < nextId
  }

  ghost predicate Write(s: Store, t: Store, rows: seq<Stored>)
  {
    (forall i :: 0 <= i < |rows| ==> rows[i].Keys == s.schema) && t == s.(pending := s.pending + rows)
  }

  ghost predicate Take(s: Store, t: Store)
  {
    !s.flushing && s.pending != [] && t == s.(inFlight := s.pending, pending := [], flushing := true)
  }

  /** The files hold the rows in flight: any split of them, in any order. */
  ghost predicate FlushCommit(s: Store, t: Store, data: map<nat, seq<Stored>>, nextId: nat)
  {
    && s.flushing && FreshFiles(s, data, nextId)
    && (forall id, i :: id in data && 0 <= i < |data[id]| ==> data[id][i] in s.inFlight)
    && (forall schema: set<nat>, r: Stored ::
          Sum(data.Keys, (id: nat) => if id in data then CopiesAs(data[id], schema, r) else 0) == CopiesAs(s.inFlight, schema, r))
    && t == s.(version := s.version + 1, nextId := nextId, contents := s.contents + data, inFlight := [], flushing := false,
               segments := s.segments + set id | id in data :: Segment(id, s.version + 1))
  }

  ghost predicate FlushFail(s: Store, t: Store)
  {
    s.flushing && t == s.(inFlight := [], flushing := false)
  }

  /** A running job refuses a delete on a field it drops. */
  ghost predicate Delete(s: Store, t: Store, pred: nat)
  {
    && s.looksAt(pred) <= s.schema && (s.job.Some? ==> s.looksAt(pred) <= s.job.value.target)
    && t == s.(version := s.version + 1, tombstones := s.tombstones + {Tombstone(s.version + 1, pred)})
  }

  /** `CreateJob`: new fields get new ids, and no field a tombstone reads may go. */
  ghost predicate Start(s: Store, t: Store, target: set<nat>, rewrite: bool)
  {
    && s.job.None? && (target - s.schema) !! s.used
    && (forall d :: d in s.tombstones ==> s.looksAt(d.pred) <= target)
    && t == s.(version := s.version + 1, used := s.used + target, job := Some(Migrating(target, rewrite, map[])))
  }

  /** `rewrite_segments` kept every row of `x`, as the target sees it, under `x`'s own sequence
      number; the outputs store exactly the target's fields. */
  ghost predicate Rewritten(contents: map<nat, seq<Stored>>, x: Segment, outs: set<Segment>, target: set<nat>)
  {
    && x.id in contents
    && (forall y :: y in outs ==> y.seqNo == x.seqNo && y.id in contents)
    && forall r: Stored :: Sum(outs, CopiesIn(contents, target, r)) == CopiesAs(contents[x.id], target, r)
  }

  ghost function CopiesIn(contents: map<nat, seq<Stored>>, target: set<nat>, r: Stored): Segment -> nat
  {
    (y: Segment) => if y.id in contents then CopiesAs(contents[y.id], target, r) else 0
  }

  /** `AdvanceJob`: some segments of the gap, each reused as it is or replaced by new files. */
  ghost predicate Advance(
    s: Store, t: Store, chosen: set<Segment>, outs: map<nat, set<Segment>>, data: map<nat, seq<Stored>>, nextId: nat)
  {
    && s.job.Some? && chosen <= Gap(s) && outs.Keys == Ids(chosen) && FreshFiles(s, data, nextId)
    && var j := s.job.value;
    && (forall x :: x in chosen ==>
          if j.rewrite then Rewritten(s.contents + data, x, outs[x.id], j.target) && Ids(outs[x.id]) <= data.Keys
          else outs[x.id] == {x})
    && (forall id, i :: id in data && 0 <= i < |data[id]| ==> data[id][i].Keys == j.target)
    && (forall a, b :: a in outs && b in outs && a != b ==> Ids(outs[a]) !! Ids(outs[b]))
    && t == s.(version := s.version + 1, nextId := nextId, contents := s.contents + data,
               job := Some(j.(images := j.images + outs)))
  }

  /** `SwapJob`: refused while rows of the table are in flight or a segment is not carried; the
      buffered rows are projected onto the target under the same lock. */
  ghost predicate Swap(s: Store, t: Store)
  {
    && s.job.Some? && s.inFlight == [] && !s.flushing && Gap(s) == {}
    && var j := s.job.value;
    && t == s.(version := s.version + 1, schema := j.target, segments := Target(j), job := None,
               pending := Projected(s.pending, s.schema, j.target))
  }

  function Projected(rows: seq<Stored>, from: set<nat>, to: set<nat>): (r: seq<Stored>)
    ensures |r| == |rows| && forall i :: 0 <= i < |rows| ==> r[i] == View(View(rows[i], from), to)
  {
    seq(|rows|, i requires 0 <= i < |rows| => View(View(rows[i], from), to))
  }

  datatype Action =
    | AWrite(rows: seq<Stored>)
    | ATake
    | AFlushCommit(data: map<nat, seq<Stored>>, nextId: nat)
    | AFlushFail
    | ADelete(pred: nat)
    | AStart(target: set<nat>, rewrite: bool)
    | AAdvance(chosen: set<Segment>, outs: map<nat, set<Segment>>, data: map<nat, seq<Stored>>, nextId: nat)
    | ASwap
    | ACancel

  ghost predicate Step(s: Store, t: Store, a: Action)
  {
    match a
    case AWrite(rows) => Write(s, t, rows)
    case ATake => Take(s, t)
    case AFlushCommit(data, nextId) => FlushCommit(s, t, data, nextId)
    case AFlushFail => FlushFail(s, t)
    case ADelete(pred) => Delete(s, t, pred)
    case AStart(target, rewrite) => Start(s, t, target, rewrite)
    case AAdvance(chosen, outs, data, nextId) => Advance(s, t, chosen, outs, data, nextId)
    case ASwap => Swap(s, t)
    case ACancel => s.job.Some? && t == s.(version := s.version + 1, job := None)
  }

  /** Whether a predicate matches depends only on the fields it reads. */
  ghost predicate Lawful(s: Store)
  {
    forall p: nat, a: Stored, b: Stored {:trigger s.covers(p, a), s.covers(p, b)} ::
      (forall id :: id in s.looksAt(p) ==> Get(a, id) == Get(b, id)) ==> s.covers(p, a) == s.covers(p, b)
  }

  ghost predicate Init(s: Store)
  {
    && Lawful(s) && s.schema == s.used && s.segments == {} && s.tombstones == {} && s.contents == map[]
    && s.pending == [] && s.inFlight == [] && !s.flushing && s.job.None?
  }

  // ── What every step keeps ──────────────────────────────────────────────────

  ghost predicate KeysWithin(rows: seq<Stored>, ids: set<nat>)
  {
    forall i :: 0 <= i < |rows| ==> rows[i].Keys <= ids
  }

  /** Every file is numbered below `nextId` and holds known fields; ids name one segment. */
  ghost predicate Filed(s: Store)
  {
    && (forall x :: x in s.segments ==> x.id in s.contents)
    && (forall id :: id in s.contents ==> id < s.nextId)
    && (forall x, y :: x in s.segments && y in s.segments && x.id == y.id ==> x == y)
  }

  /** The fields of the live table's rows are known; a new target field is in none of them. */
  ghost predicate Typed(s: Store)
  {
    && s.schema <= s.used
    && (forall id :: id in s.contents ==> KeysWithin(s.contents[id], s.used))
    && KeysWithin(s.pending, s.used) && KeysWithin(s.inFlight, s.used)
    && (forall d :: d in s.tombstones ==> s.looksAt(d.pred) <= s.schema)
  }

  /** Each handled segment is carried once: by itself, or by outputs holding its rows. */
  ghost predicate Carried(s: Store, x: Segment, imgs: set<Segment>, target: set<nat>)
  {
    imgs == {x} || Rewritten(s.contents, x, imgs, target)
  }

  ghost predicate KeysApart(rows: seq<Stored>, ids: set<nat>)
  {
    forall i :: 0 <= i < |rows| ==> rows[i].Keys !! ids
  }

  ghost predicate JobOk(s: Store)
  {
    s.job.Some? ==>
      var j := s.job.value;
      && j.target <= s.used
      && (forall x :: x in s.segments && x.id in s.contents ==> KeysApart(s.contents[x.id], j.target - s.schema))
      && KeysApart(s.pending, j.target - s.schema) && KeysApart(s.inFlight, j.target - s.schema)
      && (forall d :: d in s.tombstones ==> s.looksAt(d.pred) <= j.target)
      && (forall id :: id in j.images ==> exists x :: x in s.segments && x.id == id)
      && (forall x :: x in s.segments && x.id in j.images ==> Carried(s, x, j.images[x.id], j.target))
      && (forall id, y :: id in j.images && y in j.images[id] ==> y.id in s.contents && (y.id in Ids(s.segments) ==> y.id == id))
      && (forall a, b :: a in j.images && b in j.images && a != b ==> Ids(j.images[a]) !! Ids(j.images[b]))
  }

  ghost predicate Inv(s: Store)
  {
    Lawful(s) && Filed(s) && Typed(s) && JobOk(s)
  }

  lemma InitInv(s: Store)
    requires Init(s)
    ensures Inv(s)
  {
  }

  /** New files leave the rows of old ones, and so every carried segment, as they were. */
  lemma CarriedGrows(s: Store, t: Store, data: map<nat, seq<Stored>>, nextId: nat, x: Segment, imgs: set<Segment>, target: set<nat>)
    requires Filed(s) && FreshFiles(s, data, nextId) && t.contents == s.contents + data
    requires Carried(s, x, imgs, target) && x.id in s.contents
    ensures Carried(t, x, imgs, target)
  {
    if imgs != {x} {
      forall r: Stored
        ensures Sum(imgs, CopiesIn(t.contents, target, r)) == CopiesAs(t.contents[x.id], target, r)
      {
        SumCongruent(imgs, CopiesIn(s.contents, target, r), CopiesIn(t.contents, target, r));
      }
    }
  }

  lemma WriteKeeps(s: Store, t: Store, rows: seq<Stored>)
    requires Inv(s) && Write(s, t, rows)
    ensures Inv(t)
  {
    SameJob(s, t);
  }

  /** Steps that leave files, segments, tombstones and job alone. */
  lemma SameJob(s: Store, t: Store)
    requires JobOk(s) && t.contents == s.contents && t.segments == s.segments && t.tombstones == s.tombstones
    requires t.job == s.job && t.looksAt == s.looksAt && s.used <= t.used && t.schema == s.schema
    requires s.job.Some? ==> KeysApart(t.pending, s.job.value.target - s.schema) && KeysApart(t.inFlight, s.job.value.target - s.schema)
    ensures JobOk(t)
  {
    if s.job.Some? {
      var j := s.job.value;
      forall x | x in t.segments && x.id in j.images ensures Carried(t, x, j.images[x.id], j.target) {
        assert Carried(s, x, j.images[x.id], j.target);
      }
    }
  }

  lemma TakeKeeps(s: Store, t: Store)
    requires Inv(s) && (Take(s, t) || FlushFail(s, t))
    ensures Inv(t)
  {
    SameJob(s, t);
  }

  lemma FlushKeeps(s: Store, t: Store, data: map<nat, seq<Stored>>, nextId: nat)
    requires Inv(s) && FlushCommit(s, t, data, nextId)
    ensures Inv(t)
  {
    FlushFiled(s, t, data, nextId);
    if s.job.Some? { FlushJob(s, t, data, nextId); }
  }

  lemma InFlightRows(s: Store, rows: seq<Stored>, ids: set<nat>)
    requires forall i :: 0 <= i < |rows| ==> rows[i] in s.inFlight
    ensures KeysWithin(s.inFlight, ids) ==> KeysWithin(rows, ids)
    ensures KeysApart(s.inFlight, ids) ==> KeysApart(rows, ids)
  {
    forall i | 0 <= i < |rows| ensures exists k :: 0 <= k < |s.inFlight| && s.inFlight[k] == rows[i] {
      assert rows[i] in s.inFlight;
    }
  }

  lemma FlushFiled(s: Store, t: Store, data: map<nat, seq<Stored>>, nextId: nat)
    requires Inv(s) && FlushCommit(s, t, data, nextId)
    ensures Filed(t) && Typed(t)
  {
    forall id | id in t.contents ensures KeysWithin(t.contents[id], t.used) {
      if id in data { InFlightRows(s, data[id], s.used); }
    }
  }

  lemma FlushJob(s: Store, t: Store, data: map<nat, seq<Stored>>, nextId: nat)
    requires Inv(s) && FlushCommit(s, t, data, nextId) && s.job.Some?
    ensures JobOk(t)
  {
    var j := s.job.value;
    forall x | x in t.segments && x.id in t.contents ensures KeysApart(t.contents[x.id], j.target - t.schema) {
      if x.id in data {
        InFlightRows(s, data[x.id], j.target - s.schema);
      } else {
        assert x in s.segments;
      }
    }
    forall x | x in t.segments && x.id in j.images ensures Carried(t, x, j.images[x.id], j.target) {
      assert x in s.segments;
      CarriedGrows(s, t, data, nextId, x, j.images[x.id], j.target);
    }
    forall id, y | id in j.images && y in j.images[id]
      ensures y.id in t.contents && (y.id in Ids(t.segments) ==> y.id == id)
    {
      assert y.id < s.nextId;
    }
  }

  lemma DeleteKeeps(s: Store, t: Store, pred: nat)
    requires Inv(s) && Delete(s, t, pred)
    ensures Inv(t)
  {
    if s.job.Some? {
      var j := s.job.value;
      forall x | x in t.segments && x.id in j.images ensures Carried(t, x, j.images[x.id], j.target) {
        assert Carried(s, x, j.images[x.id], j.target);
      }
    }
  }

  lemma StartKeeps(s: Store, t: Store, target: set<nat>, rewrite: bool)
    requires Inv(s) && Start(s, t, target, rewrite)
    ensures Inv(t)
  {
    forall id | id in s.contents ensures KeysWithin(s.contents[id], t.used) && KeysApart(s.contents[id], target - s.schema) {
      assert KeysWithin(s.contents[id], s.used);
    }
  }

  lemma AdvanceKeeps(s: Store, t: Store, chosen: set<Segment>, outs: map<nat, set<Segment>>, data: map<nat, seq<Stored>>, nextId: nat)
    requires Inv(s) && Advance(s, t, chosen, outs, data, nextId)
    ensures Inv(t)
  {
    var j, k := s.job.value, t.job.value;
    forall id | id in t.contents ensures KeysWithin(t.contents[id], t.used) {
      assert id in s.contents ==> KeysWithin(s.contents[id], s.used);
    }
    forall x | x in t.segments && x.id in k.images ensures Carried(t, x, k.images[x.id], k.target) {
      AdvanceCarries(s, t, chosen, outs, data, nextId, x);
    }
    forall id, y | id in k.images && y in k.images[id]
      ensures y.id in t.contents && (y.id in Ids(t.segments) ==> y.id == id)
    {
      AdvanceOwns(s, t, chosen, outs, data, nextId, id, y);
    }
    forall a, b | a in k.images && b in k.images && a != b ensures Ids(k.images[a]) !! Ids(k.images[b]) {
      AdvanceApart(s, t, chosen, outs, data, nextId, a, b);
    }
  }

  lemma AdvanceCarries(
    s: Store, t: Store, chosen: set<Segment>, outs: map<nat, set<Segment>>, data: map<nat, seq<Stored>>, nextId: nat, x: Segment)
    requires Inv(s) && Advance(s, t, chosen, outs, data, nextId) && x in s.segments && x.id in t.job.value.images
    ensures Carried(t, x, t.job.value.images[x.id], t.job.value.target)
  {
    if x.id in outs {
      assert exists y :: y in chosen && y.id == x.id;
      assert x in chosen;
    } else {
      CarriedGrows(s, t, data, nextId, x, s.job.value.images[x.id], s.job.value.target);
    }
  }

  /** An image is the segment itself, or a file written for it alone. */
  lemma AdvanceOwns(
    s: Store, t: Store, chosen: set<Segment>, outs: map<nat, set<Segment>>, data: map<nat, seq<Stored>>, nextId: nat, id: nat, y: Segment)
    requires Inv(s) && Advance(s, t, chosen, outs, data, nextId) && id in t.job.value.images && y in t.job.value.images[id]
    ensures y.id in t.contents && (y.id in Ids(t.segments) ==> y.id == id)
    ensures id in outs && y.id in s.contents ==> y.id == id
  {
    if id in outs {
      var x :| x in chosen && x.id == id;
      if s.job.value.rewrite { assert y.id in Ids(outs[id]); }
    }
  }

  lemma AdvanceApart(
    s: Store, t: Store, chosen: set<Segment>, outs: map<nat, set<Segment>>, data: map<nat, seq<Stored>>, nextId: nat, a: nat, b: nat)
    requires Inv(s) && Advance(s, t, chosen, outs, data, nextId)
    requires a in t.job.value.images && b in t.job.value.images && a != b
    ensures Ids(t.job.value.images[a]) !! Ids(t.job.value.images[b])
  {
    var images := t.job.value.images;
    if a in outs && b !in outs { NewApartFromOld(s, t, chosen, outs, data, nextId, a, b); }
    if b in outs && a !in outs { NewApartFromOld(s, t, chosen, outs, data, nextId, b, a); }
  }

  lemma NewApartFromOld(
    s: Store, t: Store, chosen: set<Segment>, outs: map<nat, set<Segment>>, data: map<nat, seq<Stored>>, nextId: nat, a: nat, b: nat)
    requires Inv(s) && Advance(s, t, chosen, outs, data, nextId)
    requires a in outs && b in s.job.value.images && b !in outs
    ensures Ids(t.job.value.images[a]) !! Ids(t.job.value.images[b])
  {
    var images := t.job.value.images;
    forall id | id in Ids(images[a]) ensures id !in Ids(images[b]) {
      var y: Segment :| y in images[a] && y.id == id;
      AdvanceOwns(s, t, chosen, outs, data, nextId, a, y);
      var x :| x in chosen && x.id == a;
      assert x in s.segments && a in Ids(s.segments);
      assert id in Ids(images[b]) ==> id in s.contents;
      assert a !in Ids(images[b]);
    }
  }

  lemma SwapKeeps(s: Store, t: Store)
    requires Inv(s) && Swap(s, t)
    ensures Inv(t)
  {
    var j := s.job.value;
    forall x, y | x in t.segments && y in t.segments && x.id == y.id ensures x == y {
      OneImage(s, x, y);
    }
    forall x | x in t.segments ensures x.id in t.contents {
      var id :| id in j.images && x in j.images[id];
    }
  }

  lemma OneImage(s: Store, x: Segment, y: Segment)
    requires Inv(s) && s.job.Some? && x in Target(s.job.value) && y in Target(s.job.value) && x.id == y.id
    ensures x == y
  {
    var j := s.job.value;
    var a :| a in j.images && x in j.images[a];
    var b :| b in j.images && y in j.images[b];
    assert x.id in Ids(j.images[a]) && y.id in Ids(j.images[b]);
    assert a == b;
    var z :| z in s.segments && z.id == a;
    assert Carried(s, z, j.images[a], j.target);
  }

  lemma StepKeeps(s: Store, t: Store, a: Action)
    requires Inv(s) && Step(s, t, a)
    ensures Inv(t)
  {
    match a {
      case AWrite(rows) => WriteKeeps(s, t, rows);
      case ATake => TakeKeeps(s, t);
      case AFlushCommit(data, nextId) => FlushKeeps(s, t, data, nextId);
      case AFlushFail => TakeKeeps(s, t);
      case ADelete(pred) => DeleteKeeps(s, t, pred);
      case AStart(target, rewrite) => StartKeeps(s, t, target, rewrite);
      case AAdvance(chosen, outs, data, nextId) => AdvanceKeeps(s, t, chosen, outs, data, nextId);
      case ASwap => SwapKeeps(s, t);
      case ACancel =>
    }
  }

  // ── The swap shows the same rows ───────────────────────────────────────────

  lemma ViewTwice(row: Stored, schema: set<nat>, shown: set<nat>)
    requires row.Keys !! (shown - schema)
    ensures View(View(row, schema), shown) == View(row, shown)
  {
    forall id | id in shown ensures Get(View(row, schema), id) == Get(row, id) {
      if id !in schema { assert id in shown - schema; }
    }
  }

  /** A tombstone that reads only fields of both schemas cannot tell them apart. */
  lemma DeadAgrees(s: Store, seqNo: nat, row: Stored, a: set<nat>, b: set<nat>)
    requires Lawful(s)
    requires forall d :: d in s.tombstones ==> s.looksAt(d.pred) <= a && s.looksAt(d.pred) <= b
    ensures Dead(s, seqNo, View(row, a)) == Dead(s, seqNo, View(row, b))
  {
    forall d | d in s.tombstones ensures s.covers(d.pred, View(row, a)) == s.covers(d.pred, View(row, b)) {
      assert forall id :: id in s.looksAt(d.pred) ==> Get(View(row, a), id) == Get(View(row, b), id);
    }
  }

  /** A segment's live rows, shown as the target: all copies or none, since every copy looks alike
      to the tombstones. */
  lemma {:induction false} LiveIsCopies(s: Store, rows: seq<Stored>, seqNo: nat, schema: set<nat>, target: set<nat>, r: Stored)
    requires Lawful(s) && KeysApart(rows, target - schema)
    requires forall d :: d in s.tombstones ==> s.looksAt(d.pred) <= schema && s.looksAt(d.pred) <= target
    ensures LiveRows(s, rows, seqNo, schema, target, r) == if Dead(s, seqNo, r) then 0 else CopiesAs(rows, target, r)
  {
    if rows != [] {
      var row := rows[|rows| - 1];
      LiveIsCopies(s, rows[..|rows| - 1], seqNo, schema, target, r);
      ViewTwice(row, schema, target);
      DeadAgrees(s, seqNo, row, schema, target);
    }
  }

  /** The images of the segments `xs`. */
  function Images(xs: set<Segment>, images: map<nat, set<Segment>>): set<Segment>
    requires forall x :: x in xs ==> x.id in images
  {
    set x, y | x in xs && y in images[x.id] :: y
  }

  lemma {:induction false} SumImages(xs: set<Segment>, images: map<nat, set<Segment>>, f: Segment -> nat, g: Segment -> nat)
    requires forall x :: x in xs ==> x.id in images && Sum(images[x.id], f) == g(x)
    requires forall x, y :: x in xs && y in xs && x.id == y.id ==> x == y
    requires forall a, b :: a in images && b in images && a != b ==> images[a] !! images[b]
    ensures Sum(Images(xs, images), f) == Sum(xs, g)
    decreases |xs|
  {
    if xs == {} {
      assert Images(xs, images) == {};
    } else {
      var x :| x in xs;
      var rest := xs - {x};
      SumImages(rest, images, f, g);
      SumRemove(xs, g, x);
      ImagesStep(xs, images, x);
      SumUnion(Images(rest, images), images[x.id], f);
    }
  }

  lemma ImagesStep(xs: set<Segment>, images: map<nat, set<Segment>>, x: Segment)
    requires x in xs && forall y :: y in xs ==> y.id in images
    requires forall y, z :: y in xs && z in xs && y.id == z.id ==> y == z
    requires forall a, b :: a in images && b in images && a != b ==> images[a] !! images[b]
    ensures Images(xs, images) == Images(xs - {x}, images) + images[x.id]
    ensures Images(xs - {x}, images) !! images[x.id]
  {
    forall y | y in Images(xs - {x}, images) ensures y !in images[x.id] {
      var z :| z in xs - {x} && y in images[z.id];
      assert images[z.id] !! images[x.id];
    }
  }

  lemma TargetIsImages(s: Store)
    requires Inv(s) && s.job.Some? && Gap(s) == {}
    ensures forall x :: x in s.segments ==> x.id in s.job.value.images
    ensures Target(s.job.value) == Images(s.segments, s.job.value.images)
  {
    var j := s.job.value;
    forall x | x in s.segments ensures x.id in j.images {
      assert x !in Gap(s);
    }
    forall y | y in Target(j) ensures y in Images(s.segments, j.images) {
      var id :| id in j.images && y in j.images[id];
      var x :| x in s.segments && x.id == id;
    }
  }

  lemma ImagesApart(s: Store, a: nat, b: nat)
    requires Inv(s) && s.job.Some? && a in s.job.value.images && b in s.job.value.images && a != b
    ensures s.job.value.images[a] !! s.job.value.images[b]
  {
    var images := s.job.value.images;
    forall y: Segment | y in images[a] ensures y !in images[b] {
      assert y.id in Ids(images[a]);
      assert y in images[b] ==> y.id in Ids(images[b]);
    }
  }

  /** One segment and its images show the same rows. */
  lemma SegmentShows(s: Store, t: Store, x: Segment, r: Stored)
    requires Inv(s) && Swap(s, t) && Inv(t) && x in s.segments && x.id in s.job.value.images
    ensures var j := s.job.value;
            Sum(j.images[x.id], LiveIn(t, j.target, j.target, r)) == LiveIn(s, s.schema, j.target, r)(x)
  {
    var j := s.job.value;
    var imgs := j.images[x.id];
    var dead := Dead(s, x.seqNo, r);
    LiveIsCopies(s, s.contents[x.id], x.seqNo, s.schema, j.target, r);
    assert Dead(t, x.seqNo, r) == dead;
    assert Carried(s, x, imgs, j.target);
    forall y | y in imgs
      ensures y.seqNo == x.seqNo && LiveIn(t, j.target, j.target, r)(y) == if dead then 0 else CopiesIn(s.contents, j.target, r)(y)
    {
      assert j.target - j.target == {};
      LiveIsCopies(t, t.contents[y.id], y.seqNo, j.target, j.target, r);
    }
    SumOverImages(imgs, LiveIn(t, j.target, j.target, r), CopiesIn(s.contents, j.target, r), dead);
    if imgs == {x} { SumOne(x, CopiesIn(s.contents, j.target, r)); }
  }

  lemma SumOne(x: Segment, f: Segment -> nat)
    ensures Sum({x}, f) == f(x)
  {
    SumRemove({x}, f, x);
    assert {x} - {x} == {};
  }

  lemma SumOverImages(imgs: set<Segment>, f: Segment -> nat, g: Segment -> nat, dead: bool)
    requires forall y :: y in imgs ==> f(y) == if dead then 0 else g(y)
    ensures Sum(imgs, f) == if dead then 0 else Sum(imgs, g)
  {
    if dead { SumZero(imgs, f); } else { SumCongruent(imgs, f, g); }
  }

  lemma {:induction false} BufferShows(rows: seq<Stored>, schema: set<nat>, target: set<nat>, r: Stored)
    ensures Buffered(Projected(rows, schema, target), target, target, r) == Buffered(rows, schema, target, r)
  {
    if rows != [] {
      var n := |rows| - 1;
      BufferShows(rows[..n], schema, target, r);
      assert Projected(rows, schema, target)[..n] == Projected(rows[..n], schema, target);
      var v := View(View(rows[n], schema), target);
      assert View(v, target) == v && View(View(v, target), target) == v;
    }
  }

  /** The swap is invisible: the migrated table shows exactly the rows the old one did, as the
      target schema sees them — reused, rewritten, tombstoned and buffered alike. */
  lemma SwapConservesRows(s: Store, t: Store, r: Stored)
    requires Inv(s) && Swap(s, t)
    ensures Visible(t, t.schema, r) == Visible(s, t.schema, r)
  {
    var j := s.job.value;
    StepKeeps(s, t, ASwap);
    TargetIsImages(s);
    var f, g := LiveIn(t, j.target, j.target, r), LiveIn(s, s.schema, j.target, r);
    forall x | x in s.segments ensures Sum(j.images[x.id], f) == g(x) { SegmentShows(s, t, x, r); }
    forall a, b | a in j.images && b in j.images && a != b ensures j.images[a] !! j.images[b] { ImagesApart(s, a, b); }
    SumImages(s.segments, j.images, f, g);
    BufferShows(s.pending, s.schema, j.target, r);
  }

  /** The job's other steps touch nothing a reader sees. */
  lemma JobStepsInvisible(s: Store, t: Store, a: Action, shown: set<nat>, r: Stored)
    requires Inv(s) && Step(s, t, a) && (a.AStart? || a.AAdvance? || a.ACancel?)
    ensures t.schema == s.schema && Visible(t, shown, r) == Visible(s, shown, r)
  {
    forall x | x in s.segments ensures LiveIn(s, s.schema, shown, r)(x) == LiveIn(t, s.schema, shown, r)(x) {
      SameLive(s, t, s.contents[x.id], x.seqNo, s.schema, shown, r);
    }
    SumCongruent(s.segments, LiveIn(s, s.schema, shown, r), LiveIn(t, s.schema, shown, r));
  }

  lemma {:induction false} SameLive(s: Store, t: Store, rows: seq<Stored>, seqNo: nat, schema: set<nat>, shown: set<nat>, r: Stored)
    requires t.tombstones == s.tombstones && t.covers == s.covers
    ensures LiveRows(t, rows, seqNo, schema, shown, r) == LiveRows(s, rows, seqNo, schema, shown, r)
  {
    if rows != [] { SameLive(s, t, rows[..|rows| - 1], seqNo, schema, shown, r); }
  }

  // ── Whole runs ─────────────────────────────────────────────────────────────

  ghost predicate Run(states: seq<Store>, actions: seq<Action>)
  {
    && |states| == |actions| + 1 && Init(states[0])
    && forall i :: 0 <= i < |actions| ==> Step(states[i], states[i + 1], actions[i])
  }

  lemma {:induction false} RunKeeps(states: seq<Store>, actions: seq<Action>, i: nat)
    requires Run(states, actions) && i < |states|
    ensures Inv(states[i])
    decreases i
  {
    if i == 0 {
      InitInv(states[0]);
    } else {
      RunKeeps(states, actions, i - 1);
      assert Step(states[i - 1], states[i], actions[i - 1]);
      StepKeeps(states[i - 1], states[i], actions[i - 1]);
    }
  }

  /** In every interleaving with writers, flushes and deletes, every step of a migration conserves
      the rows: progress shows nothing, and the swap shows the old rows as the new schema. */
  lemma MigrationConservesRows(states: seq<Store>, actions: seq<Action>, i: nat, r: Stored)
    requires Run(states, actions) && i < |actions|
    requires actions[i].AStart? || actions[i].AAdvance? || actions[i].ACancel? || actions[i].ASwap?
    ensures Visible(states[i + 1], states[i + 1].schema, r) == Visible(states[i], states[i + 1].schema, r)
  {
    RunKeeps(states, actions, i);
    assert Step(states[i], states[i + 1], actions[i]);
    if actions[i].ASwap? {
      SwapConservesRows(states[i], states[i + 1], r);
    } else {
      JobStepsInvisible(states[i], states[i + 1], actions[i], states[i].schema, r);
    }
  }

  /** At every point each handled segment is carried once — by itself, or by files holding its rows
      under its own sequence number — and no two segments share a file. */
  lemma CarriedOnce(states: seq<Store>, actions: seq<Action>, i: nat, x: Segment, y: Segment)
    requires Run(states, actions) && i < |states| && states[i].job.Some?
    requires x in states[i].segments && x.id in states[i].job.value.images
    requires y in states[i].segments && y.id in states[i].job.value.images && x != y
    ensures var j := states[i].job.value;
            && (j.images[x.id] == {x} || Rewritten(states[i].contents, x, j.images[x.id], j.target))
            && j.images[x.id] !! j.images[y.id]
  {
    RunKeeps(states, actions, i);
    ImagesApart(states[i], x.id, y.id);
    assert Carried(states[i], x, states[i].job.value.images[x.id], states[i].job.value.target);
  }

  // ── Progress ───────────────────────────────────────────────────────────────

  /** Carrying `chosen` takes exactly those out of the gap. */
  lemma AdvanceShrinksGap(
    s: Store, t: Store, chosen: set<Segment>, outs: map<nat, set<Segment>>, data: map<nat, seq<Stored>>, nextId: nat)
    requires Inv(s) && Advance(s, t, chosen, outs, data, nextId)
    ensures Gap(t) == Gap(s) - chosen && |Gap(t)| == |Gap(s)| - |chosen|
  {
    GapAfter(s, t, chosen, outs, data, nextId);
    DifferenceSize(Gap(s), chosen);
  }

  lemma DifferenceSize(a: set<Segment>, b: set<Segment>)
    requires b <= a
    ensures |a - b| == |a| - |b|
  {
    assert a == (a - b) + b;
  }

  lemma GapAfter(
    s: Store, t: Store, chosen: set<Segment>, outs: map<nat, set<Segment>>, data: map<nat, seq<Stored>>, nextId: nat)
    requires Filed(s) && Advance(s, t, chosen, outs, data, nextId)
    ensures Gap(t) == Gap(s) - chosen
  {
    forall x | x in s.segments ensures x.id in outs <==> x in chosen {
      assert x.id in outs <==> x.id in Ids(chosen);
    }
  }

  // A rewritten segment becomes one new file here; the engine may split it further.

  /** The rows as the target stores them. */
  function Restored(rows: seq<Stored>, target: set<nat>): (r: seq<Stored>)
    ensures |r| == |rows| && forall i :: 0 <= i < |rows| ==> r[i] == View(rows[i], target)
  {
    seq(|rows|, i requires 0 <= i < |rows| => View(rows[i], target))
  }

  lemma {:induction false} RestoredCopies(rows: seq<Stored>, target: set<nat>, r: Stored)
    ensures CopiesAs(Restored(rows, target), target, r) == CopiesAs(rows, target, r)
  {
    if rows != [] {
      var n := |rows| - 1;
      RestoredCopies(rows[..n], target, r);
      assert Restored(rows, target)[..n] == Restored(rows[..n], target);
      assert View(View(rows[n], target), target) == View(rows[n], target);
    }
  }

  /** The file a rewrite makes of a segment. */
  function Image(s: Store, x: Segment): Segment
  {
    if s.job.Some? && s.job.value.rewrite then Segment(s.nextId + x.id, x.seqNo) else x
  }

  function ImagesOf(s: Store, chosen: set<Segment>): map<nat, set<Segment>>
  {
    map id | id in Ids(chosen) :: set x | x in chosen && x.id == id :: Image(s, x)
  }

  function NewIds(s: Store, chosen: set<Segment>): set<nat>
  {
    if s.job.Some? && s.job.value.rewrite then set x | x in chosen :: Image(s, x).id else {}
  }

  function FileRows(s: Store, id: nat): seq<Stored>
    requires s.job.Some?
  {
    if id >= s.nextId && id - s.nextId in s.contents then Restored(s.contents[id - s.nextId], s.job.value.target) else []
  }

  function NewFiles(s: Store, chosen: set<Segment>): map<nat, seq<Stored>>
    requires s.job.Some?
  {
    map id | id in NewIds(s, chosen) :: FileRows(s, id)
  }

  lemma ImageOf(s: Store, chosen: set<Segment>, x: Segment)
    requires Filed(s) && s.job.Some? && chosen <= Gap(s) && x in chosen
    ensures x.id in ImagesOf(s, chosen) && ImagesOf(s, chosen)[x.id] == {Image(s, x)}
  {
    assert x.id in Ids(chosen);
    forall y | y in chosen && y.id == x.id ensures y == x { assert y in s.segments && x in s.segments; }
  }

  lemma ImageRewrites(s: Store, chosen: set<Segment>, x: Segment)
    requires Filed(s) && s.job.Some? && s.job.value.rewrite && chosen <= Gap(s) && x in chosen
    ensures Rewritten(s.contents + NewFiles(s, chosen), x, {Image(s, x)}, s.job.value.target)
    ensures Ids({Image(s, x)}) <= NewFiles(s, chosen).Keys
  {
    var contents, y, target := s.contents + NewFiles(s, chosen), Image(s, x), s.job.value.target;
    NewFilesFresh(s, chosen);
    assert x in s.segments && y.id - s.nextId == x.id && y.id in NewIds(s, chosen);
    assert contents[y.id] == FileRows(s, y.id) == Restored(s.contents[x.id], target);
    assert contents[x.id] == s.contents[x.id];
    forall r: Stored ensures Sum({y}, CopiesIn(contents, target, r)) == CopiesAs(contents[x.id], target, r) {
      SumOne(y, CopiesIn(contents, target, r));
      RestoredCopies(s.contents[x.id], target, r);
    }
  }

  lemma ImagesDisjoint(s: Store, chosen: set<Segment>, a: nat, b: nat)
    requires Filed(s) && s.job.Some? && chosen <= Gap(s) && a != b
    requires a in ImagesOf(s, chosen) && b in ImagesOf(s, chosen)
    ensures Ids(ImagesOf(s, chosen)[a]) !! Ids(ImagesOf(s, chosen)[b])
  {
    var x: Segment :| x in chosen && x.id == a;
    var y: Segment :| y in chosen && y.id == b;
    ImageOf(s, chosen, x);
    ImageOf(s, chosen, y);
  }

  ghost predicate Carries(s: Store, t: Store, chosen: set<Segment>)
  {
    exists outs, data, nextId :: Advance(s, t, chosen, outs, data, nextId)
  }

  /** Whatever part of the gap is chosen, it can be carried: by reuse or by rewriting. */
  lemma CanCarry(s: Store, chosen: set<Segment>) returns (t: Store)
    requires Inv(s) && s.job.Some? && chosen <= Gap(s)
    ensures Carries(s, t, chosen)
  {
    var j, outs, data, nextId := s.job.value, ImagesOf(s, chosen), NewFiles(s, chosen), 2 * s.nextId;
    t := s.(version := s.version + 1, nextId := nextId, contents := s.contents + data, job := Some(j.(images := j.images + outs)));
    forall x | x in chosen
      ensures x.id in outs && outs[x.id] == {Image(s, x)}
      ensures j.rewrite ==> Rewritten(s.contents + data, x, outs[x.id], j.target) && Ids(outs[x.id]) <= data.Keys
    {
      ImageOf(s, chosen, x);
      if j.rewrite { ImageRewrites(s, chosen, x); }
    }
    NewFilesFresh(s, chosen);
    forall a, b | a in outs && b in outs && a != b ensures Ids(outs[a]) !! Ids(outs[b]) { ImagesDisjoint(s, chosen, a, b); }
    assert Advance(s, t, chosen, outs, data, nextId);
  }

  lemma NewFilesFresh(s: Store, chosen: set<Segment>)
    requires Filed(s) && s.job.Some? && chosen <= Gap(s)
    ensures FreshFiles(s, NewFiles(s, chosen), 2 * s.nextId)
    ensures forall id, i :: id in NewFiles(s, chosen) && 0 <= i < |NewFiles(s, chosen)[id]| ==> NewFiles(s, chosen)[id][i].Keys == s.job.value.target
  {
    forall id | id in NewIds(s, chosen) ensures s.nextId <= id < 2 * s.nextId { NewIdFresh(s, chosen, id); }
  }

  lemma NewIdFresh(s: Store, chosen: set<Segment>, id: nat)
    requires Filed(s) && s.job.Some? && chosen <= Gap(s) && id in NewIds(s, chosen)
    ensures s.nextId <= id < 2 * s.nextId
  {
    var x: Segment :| x in chosen && id == Image(s, x).id;
    assert x in s.segments;
  }

  // ── Whole migrations ───────────────────────────────────────────────────────

  function Smaller(a: nat, b: nat): (r: nat)
    ensures r <= a && r <= b && (r == a || r == b)
  {
    if a < b then a else b
  }

  /** A job with no buffered rows of its table and no flush under way. */
  ghost predicate Quiet(s: Store)
  {
    s.job.Some? && s.pending == [] && s.inFlight == [] && !s.flushing
  }

  /** The last call: what is left of the gap, then the swap. */
  ghost predicate CarriesRest(s: Store, mid: Store)
    requires s.job.Some?
  {
    if Gap(s) == {} then mid == s else Carries(s, mid, Gap(s))
  }

  ghost predicate Part(s: Store, t: Store, chosen: set<Segment>, n: nat)
  {
    |chosen| == n && Carries(s, t, chosen)
  }

  /** One `run_job` on a quiet store: a gap above `swapGap` shrinks by up to `stepSegments`;
      otherwise the rest is carried and the target swapped in. */
  ghost predicate Call(s: Store, t: Store, swapGap: nat, stepSegments: nat)
    requires s.job.Some?
  {
    if |Gap(s)| > swapGap then exists chosen :: Part(s, t, chosen, Smaller(stepSegments, |Gap(s)|))
    else exists mid :: CarriesRest(s, mid) && Swap(mid, t)
  }

  lemma CarriesEffect(s: Store, t: Store, chosen: set<Segment>, shown: set<nat>, r: Stored)
    requires Inv(s) && Quiet(s) && Carries(s, t, chosen)
    ensures Inv(t) && Quiet(t) && Gap(t) == Gap(s) - chosen && |Gap(t)| == |Gap(s)| - |chosen|
    ensures t.schema == s.schema && t.job.value.target == s.job.value.target && Visible(t, shown, r) == Visible(s, shown, r)
  {
    var outs, data, nextId :| Advance(s, t, chosen, outs, data, nextId);
    StepKeeps(s, t, AAdvance(chosen, outs, data, nextId));
    AdvanceShrinksGap(s, t, chosen, outs, data, nextId);
    JobStepsInvisible(s, t, AAdvance(chosen, outs, data, nextId), shown, r);
  }

  ghost predicate Progress(s: Store, t: Store, swapGap: nat, stepSegments: nat)
    requires s.job.Some?
  {
    if |Gap(s)| > swapGap then Quiet(t) && |Gap(t)| == |Gap(s)| - Smaller(stepSegments, |Gap(s)|)
    else t.job.None? && t.schema == s.job.value.target
  }

  /** A call either shrinks the gap by exactly its share or ends the job. */
  lemma CallEffect(s: Store, t: Store, swapGap: nat, stepSegments: nat)
    requires Inv(s) && Quiet(s) && Call(s, t, swapGap, stepSegments)
    ensures Inv(t) && Progress(s, t, swapGap, stepSegments)
  {
    if |Gap(s)| > swapGap {
      var chosen :| Part(s, t, chosen, Smaller(stepSegments, |Gap(s)|));
      CarriesEffect(s, t, chosen, s.schema, map[]);
    } else {
      var mid :| CarriesRest(s, mid) && Swap(mid, t);
      if Gap(s) != {} { CarriesEffect(s, mid, Gap(s), t.schema, map[]); }
      StepKeeps(mid, t, ASwap);
    }
  }

  /** Readers of the table's schema, the old one or the new, see the same rows after a call. */
  lemma CallConservesRows(s: Store, t: Store, swapGap: nat, stepSegments: nat, r: Stored)
    requires Inv(s) && Quiet(s) && Call(s, t, swapGap, stepSegments)
    ensures Visible(t, t.schema, r) == Visible(s, t.schema, r)
  {
    if |Gap(s)| > swapGap {
      var chosen :| Part(s, t, chosen, Smaller(stepSegments, |Gap(s)|));
      CarriesEffect(s, t, chosen, s.schema, r);
    } else {
      var mid :| CarriesRest(s, mid) && Swap(mid, t);
      if Gap(s) != {} { CarriesEffect(s, mid, Gap(s), t.schema, r); }
      SwapConservesRows(mid, t, r);
    }
  }

  lemma {:induction false} Subset(a: set<Segment>, n: nat) returns (b: set<Segment>)
    requires n <= |a|
    ensures b <= a && |b| == n
  {
    if n == 0 {
      b := {};
    } else {
      var x :| x in a;
      b := Subset(a - {x}, n - 1);
      b := b + {x};
    }
  }

  /** A quiet job can always be called, whether its segments are reused or rewritten. */
  lemma CallEnabled(s: Store, swapGap: nat, stepSegments: nat) returns (t: Store)
    requires Inv(s) && Quiet(s)
    ensures Call(s, t, swapGap, stepSegments)
  {
    if |Gap(s)| > swapGap {
      var chosen := Subset(Gap(s), Smaller(stepSegments, |Gap(s)|));
      t := CanCarry(s, chosen);
      assert Part(s, t, chosen, Smaller(stepSegments, |Gap(s)|));
    } else {
      var mid := s;
      if Gap(s) != {} {
        mid := CanCarry(s, Gap(s));
        CarriesEffect(s, mid, Gap(s), {}, map[]);
      }
      assert CarriesRest(s, mid) && Gap(mid) == {};
      var j := mid.job.value;
      t := mid.(version := mid.version + 1, schema := j.target, segments := Target(j), job := None,
                pending := Projected(mid.pending, mid.schema, j.target));
      assert Swap(mid, t);
    }
  }

  /** How many calls a quiet job needs: one for each full or partial step down to the swap gap,
      and one for the swap. */
  function Calls(gap: nat, swapGap: nat, stepSegments: nat): nat
    requires stepSegments >= 1
  {
    if gap <= swapGap then 1 else 1 + (gap - swapGap + stepSegments - 1) / stepSegments
  }

  lemma OneCallFewer(gap: nat, swapGap: nat, stepSegments: nat)
    requires stepSegments >= 1 && gap > swapGap
    ensures Calls(gap, swapGap, stepSegments) == 1 + Calls(gap - Smaller(stepSegments, gap), swapGap, stepSegments)
  {
    var over := gap - swapGap + stepSegments - 1;
    var q, r := over / stepSegments, over % stepSegments;
    assert over == q * stepSegments + r;
    if gap - stepSegments > swapGap {
      UniqueQuotient(over - stepSegments, stepSegments, q - 1, r);
    } else {
      UniqueQuotient(over, stepSegments, 1, over - stepSegments);
    }
  }

  /** Calls still to come. */
  ghost function CallsLeft(s: Store, swapGap: nat, stepSegments: nat): nat
    requires stepSegments >= 1
  {
    if s.job.None? then 0 else Calls(|Gap(s)|, swapGap, stepSegments)
  }

  ghost predicate Healthy(s: Store)
  {
    Inv(s) && (s.job.Some? ==> Quiet(s))
  }

  lemma StaysHealthy(s: Store, t: Store, swapGap: nat, stepSegments: nat)
    requires Healthy(s) && s.job.Some? && Call(s, t, swapGap, stepSegments)
    ensures Healthy(t)
  {
    CallEffect(s, t, swapGap, stepSegments);
  }

  lemma OneCall(s: Store, t: Store, swapGap: nat, stepSegments: nat)
    requires stepSegments >= 1 && s.job.Some? && Progress(s, t, swapGap, stepSegments)
    ensures CallsLeft(t, swapGap, stepSegments) == CallsLeft(s, swapGap, stepSegments) - 1
  {
    if |Gap(s)| > swapGap { OneCallFewer(|Gap(s)|, swapGap, stepSegments); }
  }

  ghost predicate CallAt(states: seq<Store>, i: nat, swapGap: nat, stepSegments: nat)
    requires i + 1 < |states|
  {
    states[i].job.Some? && Call(states[i], states[i + 1], swapGap, stepSegments)
  }

  ghost predicate CallRun(states: seq<Store>, swapGap: nat, stepSegments: nat)
  {
    states != [] && forall i :: 0 <= i < |states| - 1 ==> CallAt(states, i, swapGap, stepSegments)
  }

  lemma {:induction false} RunHealthy(states: seq<Store>, swapGap: nat, stepSegments: nat, i: nat)
    requires CallRun(states, swapGap, stepSegments) && Healthy(states[0]) && i < |states|
    ensures Healthy(states[i])
  {
    if i > 0 {
      RunHealthy(states, swapGap, stepSegments, i - 1);
      assert CallAt(states, i - 1, swapGap, stepSegments);
      StaysHealthy(states[i - 1], states[i], swapGap, stepSegments);
    }
  }

  lemma RunProgresses(states: seq<Store>, swapGap: nat, stepSegments: nat, i: nat)
    requires CallRun(states, swapGap, stepSegments) && Healthy(states[0]) && i + 1 < |states|
    ensures states[i].job.Some? && Progress(states[i], states[i + 1], swapGap, stepSegments)
  {
    RunHealthy(states, swapGap, stepSegments, i);
    assert CallAt(states, i, swapGap, stepSegments);
    CallEffect(states[i], states[i + 1], swapGap, stepSegments);
  }

  lemma {:induction false} CallsCount(states: seq<Store>, swapGap: nat, stepSegments: nat, i: nat)
    requires stepSegments >= 1 && i < |states|
    requires forall k :: 0 <= k < i ==> states[k].job.Some? && Progress(states[k], states[k + 1], swapGap, stepSegments)
    ensures i + CallsLeft(states[i], swapGap, stepSegments) == CallsLeft(states[0], swapGap, stepSegments)
  {
    if i > 0 {
      CallsCount(states, swapGap, stepSegments, i - 1);
      assert states[i - 1].job.Some? && Progress(states[i - 1], states[i - 1 + 1], swapGap, stepSegments);
      OneCall(states[i - 1], states[i], swapGap, stepSegments);
    }
  }

  /** Termination: on a quiet store, however each call carries its share, the job runs through
      exactly `Calls` calls and is gone after the last of them. */
  lemma MigrationEnds(states: seq<Store>, swapGap: nat, stepSegments: nat)
    requires stepSegments >= 1 && CallRun(states, swapGap, stepSegments) && Inv(states[0]) && Quiet(states[0])
    ensures var calls := Calls(|Gap(states[0])|, swapGap, stepSegments);
            && |states| - 1 <= calls
            && (states[|states| - 1].job.None? <==> |states| - 1 == calls)
  {
    var n := |states| - 1;
    forall k | 0 <= k < n ensures states[k].job.Some? && Progress(states[k], states[k + 1], swapGap, stepSegments) {
      RunProgresses(states, swapGap, stepSegments, k);
    }
    CallsCount(states, swapGap, stepSegments, n);
  }

  lemma RunFrom(s: Store, rest: seq<Store>, swapGap: nat, stepSegments: nat)
    requires s.job.Some? && CallRun(rest, swapGap, stepSegments) && Call(s, rest[0], swapGap, stepSegments)
    ensures CallRun([s] + rest, swapGap, stepSegments)
  {
    var states := [s] + rest;
    forall i | 0 <= i < |states| - 1 ensures CallAt(states, i, swapGap, stepSegments) {
      if i > 0 { assert CallAt(rest, i - 1, swapGap, stepSegments); }
    }
  }

  /** And such a run exists from every quiet store with a job. */
  lemma {:induction false} MigrationCanFinish(s: Store, swapGap: nat, stepSegments: nat) returns (states: seq<Store>)
    requires stepSegments >= 1 && Healthy(s)
    ensures CallRun(states, swapGap, stepSegments) && states[0] == s && states[|states| - 1].job.None?
    decreases CallsLeft(s, swapGap, stepSegments)
  {
    if s.job.None? {
      states := [s];
    } else {
      var t := CallEnabled(s, swapGap, stepSegments);
      StaysHealthy(s, t, swapGap, stepSegments);
      CallEffect(s, t, swapGap, stepSegments);
      OneCall(s, t, swapGap, stepSegments);
      var rest := MigrationCanFinish(t, swapGap, stepSegments);
      RunFrom(s, rest, swapGap, stepSegments);
      states := [s] + rest;
    }
  }
}
