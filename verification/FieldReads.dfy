/** Reading a segment through a schema, column by column, by field id (src/storage/read.rs), and the
    entry a reused segment gets (src/storage/manifest/mod.rs). */
module FieldReads {
  import opened Options
  import opened Order

  /** 0 marks a file column the entry does not read. */
  type FieldId = nat

  datatype SchemaField = SchemaField(id: FieldId, ty: Type)

  type Column = seq<Value>

  function Nulls(rows: nat): (c: Column)
    ensures |c| == rows
  {
    seq(rows, _ => Null)
  }

  /** The first position of a non-zero id. */
  function Position(ids: seq<FieldId>, id: FieldId): (r: Option<nat>)
    ensures r.Some? ==> r.value < |ids| && ids[r.value] == id && id != 0
    ensures r.Some? ==> forall j :: 0 <= j < r.value ==> ids[j] != id
    ensures r.None? <==> id == 0 || id !in ids
  {
    if id == 0 || ids == [] then None
    else if ids[0] == id then Some(0)
    else
      var rest := Position(ids[1..], id);
      assert id in ids <==> id in ids[1..];
      if rest.Some? then Some(rest.value + 1) else None
  }

  /** What a field is in a file: its column, or all NULL. */
  function ColumnOf(ids: seq<FieldId>, file: seq<Column>, id: FieldId, rows: nat): Column
    requires |ids| == |file|
  {
    var i := Position(ids, id);
    if i.Some? then file[i.value] else Nulls(rows)
  }

  // ── Reading a segment as a schema ──────────────────────────────────────────

  method MapFileColumns(schema: seq<SchemaField>, ids: seq<FieldId>, types: seq<Type>) returns (r: Option<seq<Option<nat>>>)
    requires |ids| == |types|
    ensures r.None? <==> exists k :: 0 <= k < |schema| && Mismatch(schema[k], ids, types)
    ensures r.Some? ==> |r.value| == |schema| && forall k :: 0 <= k < |schema| ==> r.value[k] == Position(ids, schema[k].id)
  {
    var index: seq<Option<nat>> := [];
    var k := 0;
    while k < |schema|
      invariant 0 <= k <= |schema| && |index| == k
      invariant forall j :: 0 <= j < k ==> index[j] == Position(ids, schema[j].id) && !Mismatch(schema[j], ids, types)
    {
      var i := Position(ids, schema[k].id);
      if i.Some? && types[i.value] != schema[k].ty {
        assert Mismatch(schema[k], ids, types);
        return None;
      }
      index := index + [i];
      k := k + 1;
    }
    r := Some(index);
  }

  /** A file column whose type disagrees with the schema's. */
  predicate Mismatch(f: SchemaField, ids: seq<FieldId>, types: seq<Type>)
    requires |ids| == |types|
  {
    Position(ids, f.id).Some? && types[Position(ids, f.id).value] != f.ty
  }

  /** How many fields before `k` are in the file. */
  function Matched(index: seq<Option<nat>>, k: nat): nat
    requires k <= |index|
  {
    if k == 0 then 0 else Matched(index, k - 1) + if index[k - 1].Some? then 1 else 0
  }

  lemma {:induction false} MatchedGrows(index: seq<Option<nat>>, j: nat, k: nat)
    requires j < k <= |index|
    ensures Matched(index, j) <= Matched(index, k)
    ensures index[j].Some? ==> Matched(index, j) < Matched(index, k)
    decreases k
  {
    if j < k - 1 { MatchedGrows(index, j, k - 1); }
  }

  /** `realign`: an iterator over the decoded columns, advanced at every matched field. */
  method Realign(index: seq<Option<nat>>, projected: seq<Column>, rows: nat) returns (columns: seq<Column>)
    requires |projected| == Matched(index, |index|)
    ensures |columns| == |index|
    ensures forall k :: 0 <= k < |index| && index[k].None? ==> columns[k] == Nulls(rows)
    ensures forall k :: 0 <= k < |index| && index[k].Some? ==>
              Matched(index, k) < |projected| && columns[k] == projected[Matched(index, k)]
  {
    columns := [];
    var next, k := 0, 0;
    while k < |index|
      invariant 0 <= k <= |index| && |columns| == k && next == Matched(index, k)
      invariant forall j :: 0 <= j < k && index[j].None? ==> columns[j] == Nulls(rows)
      invariant forall j :: 0 <= j < k && index[j].Some? ==>
                  Matched(index, j) < |projected| && columns[j] == projected[Matched(index, j)]
    {
      if index[k].Some? {
        MatchedGrows(index, k, |index|);
        columns := columns + [projected[next]];
        next := next + 1;
      } else {
        columns := columns + [Nulls(rows)];
      }
      k := k + 1;
    }
  }

  /** The columns decoded from the file: the matched ones, in schema order. */
  method Projection(index: seq<Option<nat>>, file: seq<Column>) returns (projected: seq<Column>)
    requires forall k :: 0 <= k < |index| && index[k].Some? ==> index[k].value < |file|
    ensures |projected| == Matched(index, |index|)
    ensures forall k :: 0 <= k < |index| && index[k].Some? ==>
              Matched(index, k) < |projected| && projected[Matched(index, k)] == file[index[k].value]
  {
    projected := [];
    var k := 0;
    while k < |index|
      invariant 0 <= k <= |index| && |projected| == Matched(index, k)
      invariant forall j :: 0 <= j < k && index[j].Some? ==>
                  Matched(index, j) < |projected| && projected[Matched(index, j)] == file[index[j].value]
    {
      if index[k].Some? { projected := projected + [file[index[k].value]]; }
      k := k + 1;
    }
  }

  /** `read_segment_as`: every field of the schema is its own column of the file, found by id, or
      NULL; the only error is a type that disagrees. */
  method ReadSegmentAs(schema: seq<SchemaField>, ids: seq<FieldId>, types: seq<Type>, file: seq<Column>, rows: nat)
    returns (r: Option<seq<Column>>)
    requires |ids| == |types| == |file|
    ensures r.None? <==> exists k :: 0 <= k < |schema| && Mismatch(schema[k], ids, types)
    ensures r.Some? ==> r.value == ReadAs(ids, file, rows, Ids(schema))
  {
    var index := MapFileColumns(schema, ids, types);
    if index.None? { return None; }
    var projected := Projection(index.value, file);
    var columns := Realign(index.value, projected, rows);
    assert columns == ReadAs(ids, file, rows, Ids(schema));
    r := Some(columns);
  }

  function Ids(schema: seq<SchemaField>): (ids: seq<FieldId>)
    ensures |ids| == |schema| && forall k :: 0 <= k < |schema| ==> ids[k] == schema[k].id
  {
    seq(|schema|, k requires 0 <= k < |schema| => schema[k].id)
  }

  function ReadAs(ids: seq<FieldId>, file: seq<Column>, rows: nat, schema: seq<FieldId>): (r: seq<Column>)
    requires |ids| == |file|
    ensures |r| == |schema| && forall k :: 0 <= k < |schema| ==> r[k] == ColumnOf(ids, file, schema[k], rows)
  {
    seq(|schema|, k requires 0 <= k < |schema| => ColumnOf(ids, file, schema[k], rows))
  }

  /** `project_batch`: the same rule for a batch still in memory, whose columns are the old
      schema's fields. */
  method ProjectBatch(columns: seq<Column>, rows: nat, from: seq<SchemaField>, to: seq<SchemaField>)
    returns (r: Option<seq<Column>>)
    requires |columns| == |from|
    requires forall k :: 0 <= k < |to| ==> to[k].id != 0
    ensures r.None? <==> exists k :: 0 <= k < |to| && Mismatch(to[k], Ids(from), Types(from))
    ensures r.Some? ==> r.value == ReadAs(Ids(from), columns, rows, Ids(to))
  {
    var out: seq<Column> := [];
    var k := 0;
    while k < |to|
      invariant 0 <= k <= |to| && |out| == k
      invariant forall j :: 0 <= j < k ==>
                  out[j] == ColumnOf(Ids(from), columns, to[j].id, rows) && !Mismatch(to[j], Ids(from), Types(from))
    {
      var i := Position(Ids(from), to[k].id);
      if i.Some? {
        if from[i.value].ty != to[k].ty {
          assert Mismatch(to[k], Ids(from), Types(from));
          return None;
        }
        out := out + [columns[i.value]];
      } else {
        out := out + [Nulls(rows)];
      }
      k := k + 1;
    }
    assert out == ReadAs(Ids(from), columns, rows, Ids(to));
    r := Some(out);
  }

  function Types(schema: seq<SchemaField>): (types: seq<Type>)
    ensures |types| == |schema| && forall k :: 0 <= k < |schema| ==> types[k] == schema[k].ty
  {
    seq(|schema|, k requires 0 <= k < |schema| => schema[k].ty)
  }

  // ── Reused and rewritten segments ──────────────────────────────────────────

  /** `project_onto`'s mask: a file column keeps its id only if the old entry read it. */
  function Mask(ids: seq<FieldId>, known: seq<FieldId>): (r: seq<FieldId>)
    ensures |r| == |ids|
    ensures forall i :: 0 <= i < |ids| ==> r[i] == if ids[i] != 0 && ids[i] in known then ids[i] else 0
  {
    seq(|ids|, i requires 0 <= i < |ids| => if ids[i] != 0 && ids[i] in known then ids[i] else 0)
  }

  lemma MaskedPosition(ids: seq<FieldId>, known: seq<FieldId>, id: FieldId)
    ensures Position(Mask(ids, known), id) == if id in known then Position(ids, id) else None
  {
    var m := Mask(ids, known);
    var a, b := Position(m, id), Position(ids, id);
    if id != 0 && id in known {
      assert id in m <==> id in ids by {
        if id in ids {
          var i :| 0 <= i < |ids| && ids[i] == id;
          assert m[i] == id;
        }
      }
      if a.Some? {
        assert forall j :: 0 <= j < a.value ==> m[j] != id && ids[j] != id;
        assert b.Some?;
        assert m[b.value] == id;
      }
    } else if id != 0 {
      assert id !in m;
    }
  }

  /** A reused segment, read through any schema, gives the fields its old table knew, and NULL for
      every other. */
  lemma ReusedReads(ids: seq<FieldId>, file: seq<Column>, rows: nat, known: seq<FieldId>, id: FieldId)
    requires |ids| == |file|
    ensures ColumnOf(Mask(ids, known), file, id, rows) == if id in known then ColumnOf(ids, file, id, rows) else Nulls(rows)
  {
    MaskedPosition(ids, known, id);
  }

  predicate Distinct(ids: seq<FieldId>)
  {
    (forall i, j :: 0 <= i < j < |ids| ==> ids[i] != ids[j]) && 0 !in ids
  }

  /** A rewritten segment holds the target's fields; read through any schema it gives those, and
      NULL for every other. */
  lemma RewrittenReads(ids: seq<FieldId>, file: seq<Column>, rows: nat, target: seq<FieldId>, id: FieldId)
    requires |ids| == |file| && Distinct(target)
    ensures ColumnOf(target, ReadAs(ids, file, rows, target), id, rows) ==
            if id in target then ColumnOf(ids, file, id, rows) else Nulls(rows)
  {
    var i := Position(target, id);
    if i.Some? { assert target[i.value] == id; }
  }

  /** A new field's id was never used before, so no old file has it. */
  predicate NewIdsAreNew(ids: seq<FieldId>, source: seq<FieldId>, target: seq<FieldId>)
  {
    forall k :: 0 <= k < |target| ==> target[k] in source || target[k] !in ids
  }

  /** Carrying a segment by reference or by rewriting it comes to the same: read as the target, and
      read after any further migration from the target, field by field. */
  lemma ReuseEqualsRewrite(
    ids: seq<FieldId>, file: seq<Column>, rows: nat, source: seq<FieldId>, target: seq<FieldId>, id: FieldId)
    requires |ids| == |file| && Distinct(target) && NewIdsAreNew(ids, source, target)
    ensures var reused, rewritten := Mask(ids, source), ReadAs(ids, file, rows, target);
            && (id in target ==> ColumnOf(reused, file, id, rows) == ColumnOf(target, rewritten, id, rows))
            && ColumnOf(Mask(reused, target), file, id, rows) == ColumnOf(Mask(target, target), rewritten, id, rows)
  {
    ReusedReads(ids, file, rows, source, id);
    ReusedReads(Mask(ids, source), file, rows, target, id);
    RewrittenReads(ids, file, rows, target, id);
    ReusedReads(target, ReadAs(ids, file, rows, target), rows, target, id);
    if id in target {
      var k :| 0 <= k < |target| && target[k] == id;
      if id !in source { assert Position(ids, id).None?; }
    }
  }
}
