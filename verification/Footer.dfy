/** From a column's buffers to the zone map a scan prunes by (`Column::stats`, src/exec/column.rs,
    and the bounding the segment writer applies to it). */
module Footer {
  import opened Options
  import opened Order
  import opened Prune
  import B = Bitmaps

  /** The buffers hold column `c` of the rows: one value for each valid row, NULL elsewhere. */
  ghost predicate HoldsColumn(vals: seq<Value>, valid: seq<bool>, rows: seq<Row>, c: nat, t: Type)
  {
    && |vals| == |valid| == |rows|
    && forall i :: 0 <= i < |rows| ==> if valid[i] then Cell(rows[i], c) == vals[i] && HasType(vals[i], t) else Cell(rows[i], c).Null?
  }

  lemma {:induction false} NoneMissing(valid: seq<bool>)
    requires B.CountTrue(valid) == |valid|
    ensures forall i :: 0 <= i < |valid| ==> valid[i]
  {
    if valid != [] {
      NoneMissing(valid[1..]);
      forall i | 0 <= i < |valid| ensures valid[i] { if i > 0 { assert valid[1..][i - 1]; } }
    }
  }

  lemma {:induction false} AllMissing(valid: seq<bool>)
    requires B.CountTrue(valid) == 0
    ensures forall i :: 0 <= i < |valid| ==> !valid[i]
  {
    if valid != [] {
      AllMissing(valid[1..]);
      forall i | 0 <= i < |valid| ensures !valid[i] { if i > 0 { assert !valid[1..][i - 1]; } }
    }
  }

  lemma NullCountMeans(vals: seq<Value>, valid: seq<bool>, rows: seq<Row>, c: nat, t: Type, nulls: nat)
    requires HoldsColumn(vals, valid, rows, c, t) && nulls == |valid| - B.CountTrue(valid)
    ensures nulls == 0 ==> forall row :: row in rows ==> !Cell(row, c).Null?
    ensures nulls == |rows| ==> forall row :: row in rows ==> Cell(row, c).Null?
  {
    if nulls == 0 { NoneMissing(valid); }
    if nulls == |rows| { AllMissing(valid); }
    forall row | row in rows
      ensures nulls == 0 ==> !Cell(row, c).Null?
      ensures nulls == |rows| ==> Cell(row, c).Null?
    {
      var i :| 0 <= i < |rows| && rows[i] == row;
    }
  }

  /** Bounds on the valid entries are bounds on the column's non-null cells. */
  lemma BoundsCarryOver(
    vals: seq<Value>, valid: seq<bool>, rows: seq<Row>, c: nat, t: Type,
    min: Option<Value>, max: Option<Value>, lo: Option<Value>, hi: Option<Value>)
    requires HoldsColumn(vals, valid, rows, c, t) && MinMaxOf(vals, valid, |vals|, min, max, t)
    requires lo.Some? ==> min.Some? && forall a :: HasType(a, t) && AtMost(min.value, a) ==> AtMost(lo.value, a)
    requires hi.Some? ==> hi == max
    ensures lo.Some? ==> AllAbove(lo.value, rows, c)
    ensures hi.Some? ==> AllBelow(hi.value, rows, c)
  {
    forall row | row in rows && !Cell(row, c).Null?
      ensures lo.Some? ==> AtMost(lo.value, Cell(row, c))
      ensures hi.Some? ==> AtMost(Cell(row, c), hi.value)
    {
      var i :| 0 <= i < |rows| && rows[i] == row;
      assert valid[i];
    }
  }

  lemma {:induction false} SomeMissing(valid: seq<bool>)
    ensures B.CountTrue(valid) != |valid| ==> exists i :: 0 <= i < |valid| && !valid[i]
    ensures B.CountTrue(valid) != 0 ==> exists i :: 0 <= i < |valid| && valid[i]
  {
    if valid != [] {
      SomeMissing(valid[1..]);
      assert valid == [valid[0]] + valid[1..];
      if i :| 0 <= i < |valid[1..]| && !valid[1..][i] { assert !valid[i + 1]; }
      if i :| 0 <= i < |valid[1..]| && valid[1..][i] { assert valid[i + 1]; }
    }
  }

  /** The least and the greatest entry are cells of the column, and so is a NULL if one is counted. */
  lemma {:induction false} BoundsOccur(
    vals: seq<Value>, valid: seq<bool>, rows: seq<Row>, c: nat, t: Type, min: Option<Value>, max: Option<Value>, nulls: nat)
    requires HoldsColumn(vals, valid, rows, c, t) && MinMaxOf(vals, valid, |vals|, min, max, t)
    requires nulls == |valid| - B.CountTrue(valid) && nulls != |rows|
    ensures min.Some? && max.Some?
    ensures Among(min.value, rows, c) && Among(max.value, rows, c)
    ensures nulls != 0 ==> Among(Null, rows, c)
  {
    SomeMissing(valid);
    var i :| 0 <= i < |valid| && valid[i];
    var a :| 0 <= a < |vals| && valid[a] && vals[a] == min.value;
    var b :| 0 <= b < |vals| && valid[b] && vals[b] == max.value;
    assert rows[a] in rows && rows[b] in rows;
    if nulls != 0 {
      var k :| 0 <= k < |valid| && !valid[k];
      assert rows[k] in rows;
    }
  }

  ghost predicate NoneTooLong(rows: seq<Row>, c: nat)
  {
    forall row :: row in rows ==> !TooLong(Cell(row, c))
  }

  lemma CellsTyped(vals: seq<Value>, valid: seq<bool>, rows: seq<Row>, c: nat, t: Type)
    requires HoldsColumn(vals, valid, rows, c, t)
    ensures forall row :: row in rows ==> Cell(row, c).Null? || HasType(Cell(row, c), t)
  {
    forall row | row in rows ensures Cell(row, c).Null? || HasType(Cell(row, c), t) {
      var i :| 0 <= i < |rows| && rows[i] == row;
    }
  }

  /** Least and greatest entries, bounded for the footer, give the column's range. */
  lemma {:induction false} FooterBounds(
    vals: seq<Value>, valid: seq<bool>, rows: seq<Row>, c: nat, t: Type, min: Option<Value>, max: Option<Value>, range: Range)
    requires HoldsColumn(vals, valid, rows, c, t) && !t.TList? && MinMaxOf(vals, valid, |vals|, min, max, t)
    requires range.rows == |rows| && range.nullCount == |valid| - B.CountTrue(valid)
    requires range.min.Some? ==>
               && min.Some? && HasType(range.min.value, t)
               && forall a :: HasType(a, t) && AtMost(min.value, a) ==> AtMost(range.min.value, a)
    requires range.max.Some? ==> range.max == max
    ensures RangeOf(range, rows, c, t)
  {
    CellsTyped(vals, valid, rows, c, t);
    NullCountMeans(vals, valid, rows, c, t, range.nullCount);
    BoundsCarryOver(vals, valid, rows, c, t, min, max, range.min, range.max);
  }

  /** Bounds no value is too long for are recorded as they are. */
  lemma {:induction false} TightWhenShort(
    vals: seq<Value>, valid: seq<bool>, rows: seq<Row>, c: nat, t: Type, min: Option<Value>, max: Option<Value>, range: Range)
    requires HoldsColumn(vals, valid, rows, c, t) && !t.TList? && MinMaxOf(vals, valid, |vals|, min, max, t)
    requires RangeOf(range, rows, c, t) && range.rows == |rows|
    requires range.nullCount == |valid| - B.CountTrue(valid)
    requires min.Some? && !TooLong(min.value) ==> range.min == min
    requires max.Some? && !TooLong(max.value) ==> range.max == max
    ensures range.nullCount != |rows| && NoneTooLong(rows, c) ==> TightRange(range, rows, c, t)
  {
    if range.nullCount != |rows| && NoneTooLong(rows, c) {
      BoundsOccur(vals, valid, rows, c, t, min, max, range.nullCount);
    }
  }

  /** `stats`, then `bound_stats`: what ends in the footer bounds the column, so that pruning by
      it is sound. */
  method FooterStats(
    vals: seq<Value>, validity: Option<seq<nat>>, nullCount: nat, list: bool,
    ghost rows: seq<Row>, ghost c: nat, ghost t: Type)
    returns (range: Range)
    requires ValidityOk(validity, |vals|) && HoldsColumn(vals, ValidRows(validity, |vals|), rows, c, t)
    requires nullCount == |vals| - B.CountTrue(ValidRows(validity, |vals|)) && list == t.TList?
    ensures RangeOf(range, rows, c, t) && range.rows == |rows| && range.nullCount == nullCount
    ensures !list && nullCount != |rows| && NoneTooLong(rows, c) ==> TightRange(range, rows, c, t)
  {
    ghost var valid := ValidRows(validity, |vals|);
    if list {
      CellsTyped(vals, valid, rows, c, t);
      NullCountMeans(vals, valid, rows, c, t, nullCount);
      return Range(|vals|, nullCount, None, None);
    }
    var min, max := ScanMinMax(vals, validity, t);
    var lo, hi := BoundStats(min, max, t);
    range := Range(|vals|, nullCount, lo, hi);
    FooterBounds(vals, valid, rows, c, t, min, max, range);
    TightWhenShort(vals, valid, rows, c, t, min, max, range);
  }

  /** Footer entries for every column make statistics a scan may prune by. */
  lemma FootersAreStats(stats: Stats, rows: seq<Row>, types: nat -> Type)
    requires forall c :: stats(c).Some? ==> RangeOf(stats(c).value, rows, c, types(c))
    ensures StatsOk(stats, rows)
  {
    forall c | stats(c).Some? ensures Bounds(stats(c).value, rows, c) {
      assert RangeOf(stats(c).value, rows, c, types(c));
    }
  }
}
