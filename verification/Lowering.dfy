/** Lowering a logical plan to positions (src/sql/planner.rs): names become column positions, an
    INNER join may swap its sides and restore the column order, and ORDER BY with LIMIT becomes a
    bounded top-k. */
module Lowering {
  import opened Options
  import opened Relational
  import opened Bags
  import Sorting

  const I64Max := 0x7FFF_FFFF_FFFF_FFFF
  const I64Min := -0x8000_0000_0000_0000

  function SaturatingAdd(a: int, b: int): int
  {
    if a + b > I64Max then I64Max else if a + b < I64Min then I64Min else a + b
  }

  // ── Physical plans ─────────────────────────────────────────────────────────

  datatype PExpr =
    | PColumn(i: nat)
    | PLiteral(v: Value)
    | PCmp(op: CmpOp, l: PExpr, r: PExpr)
    | PAnd(parts: seq<PExpr>)
    | POr(parts: seq<PExpr>)
    | PNot(e: PExpr)
    | PIsNull(e: PExpr)
    | PApply(f: string, args: seq<PExpr>)

  datatype PKey = PKey(i: nat, desc: bool, nullsFirst: bool)

  datatype Exec =
    | EScan(table: string, columns: seq<string>)
    | EValues(rows: seq<Row>)
    | EFilter(input: Exec, pred: PExpr)
    | EProject(input: Exec, exprs: seq<PExpr>)
    | EAggregate(input: Exec, cols: seq<nat>, spec: string, width: nat)
    | EJoin(left: Exec, right: Exec, kind: JoinKind, on: seq<(nat, nat)>, rightWidth: nat)
    | ESort(input: Exec, keys: seq<PKey>)
    | ETopK(input: Exec, keys: seq<PKey>, k: nat)
    | ELimit(input: Exec, limit: Option<nat>, offset: nat)
    | EUnionAll(branches: seq<Exec>)

  function At(row: Row, i: nat): Value
  {
    if i < |row| then row[i] else Null
  }

  function EvalP(w: World, e: PExpr, row: Row): Value
    decreases e
  {
    match e
    case PColumn(i) => At(row, i)
    case PLiteral(v) => v
    case PCmp(op, l, r) =>
      var a, b := EvalP(w, l, row), EvalP(w, r, row);
      if a.Null? || b.Null? then Null else Bool(w.cmp(op, a, b))
    case PAnd(parts) => AndAll(seq(|parts|, i requires 0 <= i < |parts| => EvalP(w, parts[i], row)))
    case POr(parts) => OrAll(seq(|parts|, i requires 0 <= i < |parts| => EvalP(w, parts[i], row)))
    case PNot(x) =>
      var v := EvalP(w, x, row);
      if v.Bool? then Bool(!v.b) else Null
    case PIsNull(x) => Bool(EvalP(w, x, row).Null?)
    case PApply(f, args) => w.apply(f, seq(|args|, i requires 0 <= i < |args| => EvalP(w, args[i], row)))
  }

  function PSelect(w: World, e: PExpr, rows: seq<Row>): seq<Row>
  {
    if rows == [] then []
    else (if EvalP(w, e, rows[0]) == Bool(true) then [rows[0]] else []) + PSelect(w, e, rows[1..])
  }

  function PEvalEach(w: World, exprs: seq<PExpr>, row: Row): Row
  {
    seq(|exprs|, i requires 0 <= i < |exprs| => EvalP(w, exprs[i], row))
  }

  function PEvalRows(w: World, exprs: seq<PExpr>, rows: seq<Row>): seq<Row>
  {
    seq(|rows|, i requires 0 <= i < |rows| => PEvalEach(w, exprs, rows[i]))
  }

  function Columns(cols: seq<nat>): seq<PExpr>
  {
    seq(|cols|, i requires 0 <= i < |cols| => PColumn(cols[i]))
  }

  predicate PMatched(w: World, on: seq<(nat, nat)>, l: Row, r: Row)
  {
    forall i :: 0 <= i < |on| ==>
      var a, b := At(l, on[i].0), At(r, on[i].1);
      !a.Null? && !b.Null? && w.cmp(Eq, a, b)
  }

  /** The hash join: each probe row with its matching build rows. */
  function PMatches(w: World, on: seq<(nat, nat)>, l: Row, rows: seq<Row>): seq<Row>
  {
    if rows == [] then []
    else (if PMatched(w, on, l, rows[0]) then [l + rows[0]] else []) + PMatches(w, on, l, rows[1..])
  }

  function PJoinRow(w: World, kind: JoinKind, on: seq<(nat, nat)>, width: nat, l: Row, rows: seq<Row>): seq<Row>
  {
    var ms := PMatches(w, on, l, rows);
    if kind == Left && ms == [] then [l + Nulls(width)] else ms
  }

  function PJoinRows(w: World, kind: JoinKind, on: seq<(nat, nat)>, width: nat, left: seq<Row>, right: seq<Row>): seq<Row>
    decreases |left|
  {
    if left == [] then []
    else PJoinRow(w, kind, on, width, left[0], right) + PJoinRows(w, kind, on, width, left[1..], right)
  }

  function PDirections(keys: seq<PKey>): seq<(bool, bool)>
  {
    seq(|keys|, i requires 0 <= i < |keys| => (keys[i].desc, keys[i].nullsFirst))
  }

  function PKeyOf(keys: seq<PKey>, row: Row): Row
  {
    seq(|keys|, i requires 0 <= i < |keys| => At(row, keys[i].i))
  }

  function PKeyLe(w: World, keys: seq<PKey>): (Row, Row) -> bool
  {
    (a: Row, b: Row) => w.le(PDirections(keys), PKeyOf(keys, a), PKeyOf(keys, b))
  }

  function ReadColumns(rec: map<string, Value>, columns: seq<string>): Row
  {
    seq(|columns|, i requires 0 <= i < |columns| => if columns[i] in rec then rec[columns[i]] else Null)
  }

  function Execute(w: World, e: Exec): seq<Row>
    decreases e
  {
    match e
    case EScan(table, columns) =>
      var t := w.tables(table);
      if columns == [] then [] else seq(|t|, i requires 0 <= i < |t| => ReadColumns(t[i], columns))
    case EValues(rows) => rows
    case EFilter(input, pred) => PSelect(w, pred, Execute(w, input))
    case EProject(input, exprs) => PEvalRows(w, exprs, Execute(w, input))
    case EAggregate(input, cols, spec, width) =>
      FitRows(w.agg(spec, PEvalRows(w, Columns(cols), Execute(w, input))), width)
    case EJoin(left, right, kind, on, width) => PJoinRows(w, kind, on, width, Execute(w, left), Execute(w, right))
    case ESort(input, keys) => Sorting.Sort(Execute(w, input), PKeyLe(w, keys))
    case ETopK(input, keys, k) => Sorting.Take(Sorting.Sort(Execute(w, input), PKeyLe(w, keys)), k)
    case ELimit(input, limit, offset) =>
      var rest := Drop(Execute(w, input), offset);
      if limit.None? then rest else Sorting.Take(rest, limit.value)
    case EUnionAll(branches) => Concat(seq(|branches|, i requires 0 <= i < |branches| => Execute(w, branches[i])))
  }

  // ── Lowering; None is the planner's "internal error" ───────────────────────

  function All<T>(xs: seq<Option<T>>): (r: Option<seq<T>>)
    ensures r.Some? <==> forall i :: 0 <= i < |xs| ==> xs[i].Some?
    ensures r.Some? ==> |r.value| == |xs| && forall i :: 0 <= i < |xs| ==> xs[i] == Some(r.value[i])
  {
    if xs == [] then Some([])
    else
      var rest := All(xs[1..]);
      assert forall i :: 1 <= i < |xs| ==> xs[i] == xs[1..][i - 1];
      if xs[0].Some? && rest.Some? then Some([xs[0].value] + rest.value) else None
  }

  function LowerName(name: string, fs: seq<Field>): Option<nat>
  {
    var i := Position(fs, name);
    if i < |fs| then Some(i) else None
  }

  function LowerExpr(e: BExpr, fs: seq<Field>): Option<PExpr>
    decreases e
  {
    match e
    case Column(name) =>
      var i := LowerName(name, fs);
      if i.Some? then Some(PColumn(i.value)) else None
    case Literal(v) => Some(PLiteral(v))
    case Cmp(op, l, r) =>
      var a, b := LowerExpr(l, fs), LowerExpr(r, fs);
      if a.Some? && b.Some? then Some(PCmp(op, a.value, b.value)) else None
    case And(parts) =>
      var xs := All(seq(|parts|, i requires 0 <= i < |parts| => LowerExpr(parts[i], fs)));
      if xs.Some? then Some(PAnd(xs.value)) else None
    case Or(parts) =>
      var xs := All(seq(|parts|, i requires 0 <= i < |parts| => LowerExpr(parts[i], fs)));
      if xs.Some? then Some(POr(xs.value)) else None
    case Not(x) =>
      var a := LowerExpr(x, fs);
      if a.Some? then Some(PNot(a.value)) else None
    case IsNull(x) =>
      var a := LowerExpr(x, fs);
      if a.Some? then Some(PIsNull(a.value)) else None
    case Apply(f, args) =>
      var xs := All(seq(|args|, i requires 0 <= i < |args| => LowerExpr(args[i], fs)));
      if xs.Some? then Some(PApply(f, xs.value)) else None
  }

  function LowerEach(exprs: seq<BExpr>, fs: seq<Field>): Option<seq<PExpr>>
  {
    All(seq(|exprs|, i requires 0 <= i < |exprs| => LowerExpr(exprs[i], fs)))
  }

  /** `column_positions`: only plain columns are allowed. */
  function ColumnPositions(exprs: seq<BExpr>, fs: seq<Field>): Option<seq<nat>>
  {
    All(seq(|exprs|, i requires 0 <= i < |exprs| => if exprs[i].Column? then LowerName(exprs[i].name, fs) else None))
  }

  function LowerKey(k: SortKey, fs: seq<Field>): Option<PKey>
  {
    var i := LowerName(k.name, fs);
    if i.Some? then Some(PKey(i.value, k.desc, k.nullsFirst)) else None
  }

  function LowerKeys(keys: seq<SortKey>, fs: seq<Field>): Option<seq<PKey>>
  {
    All(seq(|keys|, i requires 0 <= i < |keys| => LowerKey(keys[i], fs)))
  }

  function LowerPair(pair: (string, string), lf: seq<Field>, rf: seq<Field>): Option<(nat, nat)>
  {
    var a, b := LowerName(pair.0, lf), LowerName(pair.1, rf);
    if a.Some? && b.Some? then Some((a.value, b.value)) else None
  }

  function LowerOn(on: seq<(string, string)>, lf: seq<Field>, rf: seq<Field>): Option<seq<(nat, nat)>>
  {
    All(seq(|on|, i requires 0 <= i < |on| => LowerPair(on[i], lf, rf)))
  }

  function Flip(on: seq<(string, string)>): seq<(string, string)>
  {
    seq(|on|, i requires 0 <= i < |on| => (on[i].1, on[i].0))
  }

  /** Where each wanted field sits among the swapped join's columns. */
  function Restore(wanted: seq<Field>, combined: seq<Field>): Option<seq<nat>>
  {
    All(seq(|wanted|, i requires 0 <= i < |wanted| => LowerName(wanted[i].name, combined)))
  }

  /** `maybe_swap`: the side estimated smaller goes right, INNER joins only. */
  predicate Swaps(p: Plan, est: Plan -> nat)
    requires p.Join?
  {
    p.kind == Inner && est(p.right) > est(p.left)
  }

  function LowerJoin(left: Option<Exec>, right: Option<Exec>, lf: seq<Field>, rf: seq<Field>, kind: JoinKind, on: seq<(string, string)>): Option<Exec>
  {
    var onp := LowerOn(on, lf, rf);
    if left.Some? && right.Some? && onp.Some? then Some(EJoin(left.value, right.value, kind, onp.value, |rf|)) else None
  }

  function Lower(p: Plan, est: Plan -> nat): Option<Exec>
    decreases p
  {
    match p
    case Scan(table, fs) => Some(EScan(table, seq(|fs|, i requires 0 <= i < |fs| => RealName(fs[i].name))))
    case Values(_, rows) => Some(EValues(rows))
    case Filter(input, pred) =>
      var a, b := Lower(input, est), LowerExpr(pred, Fields(input));
      if a.Some? && b.Some? then Some(EFilter(a.value, b.value)) else None
    case Project(input, exprs, _) =>
      var a, b := Lower(input, est), LowerEach(exprs, Fields(input));
      if a.Some? && b.Some? then Some(EProject(a.value, b.value)) else None
    case Aggregate(input, exprs, spec, fs) =>
      var a, b := Lower(input, est), ColumnPositions(exprs, Fields(input));
      if a.Some? && b.Some? then Some(EAggregate(a.value, b.value, spec, |fs|)) else None
    case Join(left, right, kind, on, fs) =>
      var lf, rf := Fields(left), Fields(right);
      if Swaps(p, est) then
        var joined := LowerJoin(Lower(right, est), Lower(left, est), rf, lf, kind, Flip(on));
        var cols := Restore(fs, rf + lf);
        if joined.Some? && cols.Some? then Some(EProject(joined.value, Columns(cols.value))) else None
      else LowerJoin(Lower(left, est), Lower(right, est), lf, rf, kind, on)
    case Sort(input, keys) =>
      var a, b := Lower(input, est), LowerKeys(keys, Fields(input));
      if a.Some? && b.Some? then Some(ESort(a.value, b.value)) else None
    case Limit(input, limit, offset) =>
      if input.Sort? && limit.Some? then
        var a, b := Lower(input.input, est), LowerKeys(input.keys, Fields(input.input));
        var k := AtLeastZero(SaturatingAdd(limit.value, offset));
        if a.Some? && b.Some?
        then Some(ELimit(ETopK(a.value, b.value, k), Some(AtLeastZero(limit.value)), AtLeastZero(offset)))
        else None
      else
        var a := Lower(input, est);
        if a.Some? then Some(ELimit(a.value, if limit.Some? then Some(AtLeastZero(limit.value)) else None, AtLeastZero(offset)))
        else None
    case UnionAll(branches, _) =>
      var xs := All(seq(|branches|, i requires 0 <= i < |branches| => Lower(branches[i], est)));
      if xs.Some? then Some(EUnionAll(xs.value)) else None
  }

  // ── Expressions ────────────────────────────────────────────────────────────

  ghost predicate Same(w: World, e: BExpr, fs: seq<Field>, pe: PExpr)
  {
    forall row: Row :: EvalP(w, pe, row) == Eval(w, e, fs, row)
  }

  lemma {:induction false} LowerExprMeaning(w: World, e: BExpr, fs: seq<Field>)
    requires Reads(e, fs)
    ensures LowerExpr(e, fs).Some? && Same(w, e, fs, LowerExpr(e, fs).value)
    decreases e
  {
    match e {
      case Column(name) => PositionKnown(fs, name);
      case Literal(_) =>
      case Cmp(_, l, r) =>
        LowerExprMeaning(w, l, fs);
        LowerExprMeaning(w, r, fs);
      case And(parts) =>
        LowerPartsMeaning(w, e, parts, fs);
        SameLists(w, e, parts, fs);
      case Or(parts) =>
        LowerPartsMeaning(w, e, parts, fs);
        SameLists(w, e, parts, fs);
      case Not(x) => LowerExprMeaning(w, x, fs);
      case IsNull(x) => LowerExprMeaning(w, x, fs);
      case Apply(_, args) =>
        LowerPartsMeaning(w, e, args, fs);
        SameLists(w, e, args, fs);
    }
  }

  /** A node over a list of arguments lowers to the same node over the lowered list. */
  lemma SameLists(w: World, e: BExpr, parts: seq<BExpr>, fs: seq<Field>)
    requires e == And(parts) || e == Or(parts) || (e.Apply? && e.args == parts)
    requires LowerEach(parts, fs).Some?
    requires forall row: Row :: PEvalEach(w, LowerEach(parts, fs).value, row) == EvalEach(w, parts, fs, row)
    ensures LowerExpr(e, fs).Some? && Same(w, e, fs, LowerExpr(e, fs).value)
  {
    var ps := LowerEach(parts, fs).value;
    var pe := LowerExpr(e, fs).value;
    forall row: Row ensures EvalP(w, pe, row) == Eval(w, e, fs, row) {
      assert PEvalEach(w, ps, row) == EvalEach(w, parts, fs, row);
    }
  }

  /** The argument lists evaluate alike. */
  lemma {:induction false} LowerPartsMeaning(w: World, e: BExpr, parts: seq<BExpr>, fs: seq<Field>)
    requires forall i :: 0 <= i < |parts| ==> parts[i] < e && Reads(parts[i], fs)
    ensures LowerEach(parts, fs).Some?
    ensures var ps := LowerEach(parts, fs).value;
            |ps| == |parts| && (forall i :: 0 <= i < |parts| ==> Same(w, parts[i], fs, ps[i])) &&
            forall row: Row :: PEvalEach(w, ps, row) == EvalEach(w, parts, fs, row)
    decreases e, 0
  {
    var xs := seq(|parts|, i requires 0 <= i < |parts| => LowerExpr(parts[i], fs));
    forall i | 0 <= i < |parts| ensures xs[i].Some? && Same(w, parts[i], fs, xs[i].value) {
      LowerExprMeaning(w, parts[i], fs);
    }
  }

  lemma LowerEachMeaning(w: World, exprs: seq<BExpr>, fs: seq<Field>, rows: seq<Row>)
    requires forall i :: 0 <= i < |exprs| ==> Reads(exprs[i], fs)
    ensures LowerEach(exprs, fs).Some?
    ensures PEvalRows(w, LowerEach(exprs, fs).value, rows) == EvalRows(w, exprs, fs, rows)
  {
    LowerPartsMeaning(w, And(exprs), exprs, fs);
  }

  lemma PositionsMeaning(w: World, exprs: seq<BExpr>, fs: seq<Field>, rows: seq<Row>)
    requires forall i :: 0 <= i < |exprs| ==> exprs[i].Column? && Reads(exprs[i], fs)
    ensures ColumnPositions(exprs, fs).Some?
    ensures PEvalRows(w, Columns(ColumnPositions(exprs, fs).value), rows) == EvalRows(w, exprs, fs, rows)
  {
    forall i | 0 <= i < |exprs| ensures LowerName(exprs[i].name, fs).Some? {
      PositionKnown(fs, exprs[i].name);
    }
    var cols := ColumnPositions(exprs, fs).value;
    forall i | 0 <= i < |rows| ensures PEvalEach(w, Columns(cols), rows[i]) == EvalEach(w, exprs, fs, rows[i]) {
      forall j | 0 <= j < |exprs| ensures EvalP(w, Columns(cols)[j], rows[i]) == Eval(w, exprs[j], fs, rows[i]) { }
    }
  }

  lemma {:induction false} PSelectSame(w: World, e: BExpr, fs: seq<Field>, pe: PExpr, rows: seq<Row>)
    requires Same(w, e, fs, pe)
    ensures PSelect(w, pe, rows) == Select(w, e, fs, rows)
  {
    if rows != [] { PSelectSame(w, e, fs, pe, rows[1..]); }
  }

  lemma LowerKeysMeaning(w: World, keys: seq<SortKey>, fs: seq<Field>, rows: seq<Row>)
    requires forall i :: 0 <= i < |keys| ==> keys[i].name in Names(fs)
    ensures LowerKeys(keys, fs).Some?
    ensures Sorting.Sort(rows, PKeyLe(w, LowerKeys(keys, fs).value)) == Sorting.Sort(rows, KeyLe(w, fs, keys))
  {
    var xs := seq(|keys|, i requires 0 <= i < |keys| => LowerKey(keys[i], fs));
    forall i | 0 <= i < |keys| ensures xs[i].Some? { PositionKnown(fs, keys[i].name); }
    var ps := LowerKeys(keys, fs).value;
    assert PDirections(ps) == Directions(keys);
    forall a, b ensures PKeyLe(w, ps)(a, b) == KeyLe(w, fs, keys)(a, b) {
      assert PKeyOf(ps, a) == KeyOf(fs, keys, a);
      assert PKeyOf(ps, b) == KeyOf(fs, keys, b);
    }
    Sorting.InsertAllSame([], rows, PKeyLe(w, ps), KeyLe(w, fs, keys));
  }

  // ── Joins ──────────────────────────────────────────────────────────────────

  lemma LowerOnMeaning(w: World, on: seq<(string, string)>, lf: seq<Field>, rf: seq<Field>)
    requires forall i :: 0 <= i < |on| ==> on[i].0 in Names(lf) && on[i].1 in Names(rf)
    ensures LowerOn(on, lf, rf).Some?
    ensures forall l: Row, r: Row :: PMatched(w, LowerOn(on, lf, rf).value, l, r) == Matched(w, on, lf, rf, l, r)
  {
    var xs := seq(|on|, i requires 0 <= i < |on| => LowerPair(on[i], lf, rf));
    forall i | 0 <= i < |on| ensures xs[i].Some? {
      PositionKnown(lf, on[i].0);
      PositionKnown(rf, on[i].1);
    }
    var ps := LowerOn(on, lf, rf).value;
    forall l: Row, r: Row ensures PMatched(w, ps, l, r) == Matched(w, on, lf, rf, l, r) {
      forall i | 0 <= i < |on|
        ensures At(l, ps[i].0) == Lookup(lf, l, on[i].0) && At(r, ps[i].1) == Lookup(rf, r, on[i].1)
      {
        assert xs[i] == Some(ps[i]);
      }
    }
  }

  ghost predicate SameMatch(w: World, on: seq<(string, string)>, lf: seq<Field>, rf: seq<Field>, onp: seq<(nat, nat)>)
  {
    forall l: Row, r: Row :: PMatched(w, onp, l, r) == Matched(w, on, lf, rf, l, r)
  }

  lemma {:induction false} PMatchesSame(
    w: World, on: seq<(string, string)>, lf: seq<Field>, rf: seq<Field>, onp: seq<(nat, nat)>, l: Row, rows: seq<Row>)
    requires SameMatch(w, on, lf, rf, onp)
    ensures PMatches(w, onp, l, rows) == Matches(w, on, lf, rf, l, rows)
  {
    if rows != [] { PMatchesSame(w, on, lf, rf, onp, l, rows[1..]); }
  }

  lemma {:induction false} PJoinSame(
    w: World, kind: JoinKind, on: seq<(string, string)>, lf: seq<Field>, rf: seq<Field>, onp: seq<(nat, nat)>,
    left: seq<Row>, right: seq<Row>)
    requires SameMatch(w, on, lf, rf, onp)
    ensures PJoinRows(w, kind, onp, |rf|, left, right) == JoinRows(w, kind, on, lf, rf, left, right)
    decreases |left|
  {
    if left != [] {
      PMatchesSame(w, on, lf, rf, onp, left[0], right);
      PJoinSame(w, kind, on, lf, rf, onp, left[1..], right);
    }
  }

  // ── Limit over a sort ──────────────────────────────────────────────────────

  /** The bound the planner gives the top-k loses nothing. */
  predicate BoundHolds(limit: int, offset: int)
  {
    limit <= 0 || offset >= 0
  }

  ghost predicate TopKSound<T(!new)>(limit: int, offset: int)
  {
    forall rows: seq<T> :: |rows| <= I64Max ==>
      LimitRows(Sorting.Take(rows, AtLeastZero(SaturatingAdd(limit, offset))), Some(limit), offset) ==
      LimitRows(rows, Some(limit), offset)
  }

  lemma TopKLimit<T(!new)>(rows: seq<T>, limit: int, offset: int)
    requires I64Min <= limit <= I64Max && I64Min <= offset <= I64Max && |rows| <= I64Max && BoundHolds(limit, offset)
    ensures LimitRows(Sorting.Take(rows, AtLeastZero(SaturatingAdd(limit, offset))), Some(limit), offset) ==
            LimitRows(rows, Some(limit), offset)
  {
  }

  /** Limit over the bounded top-k equals limit over the sort exactly when the limit is not
      positive or the offset is not negative. */
  lemma TopKSoundIff(limit: int, offset: int)
    requires I64Min <= limit <= I64Max && I64Min <= offset <= I64Max
    ensures TopKSound<int>(limit, offset) <==> BoundHolds(limit, offset)
  {
    if BoundHolds(limit, offset) {
      forall rows: seq<int> | |rows| <= I64Max
        ensures LimitRows(Sorting.Take(rows, AtLeastZero(SaturatingAdd(limit, offset))), Some(limit), offset) ==
                LimitRows(rows, Some(limit), offset)
      {
        TopKLimit(rows, limit, offset);
      }
    } else {
      var rows := seq(limit, _ => 0);
      var k := AtLeastZero(SaturatingAdd(limit, offset));
      assert |LimitRows(rows, Some(limit), offset)| == limit;
      assert |LimitRows(Sorting.Take(rows, k), Some(limit), offset)| < limit;
    }
  }

  // ── Every name resolves ────────────────────────────────────────────────────

  /** The binder feeds aggregates plain columns. */
  ghost predicate PlainAggregates(p: Plan)
    decreases p
  {
    match p
    case Filter(input, _) => PlainAggregates(input)
    case Project(input, _, _) => PlainAggregates(input)
    case Aggregate(input, exprs, _, _) => PlainAggregates(input) && forall i :: 0 <= i < |exprs| ==> exprs[i].Column?
    case Join(left, right, _, _, _) => PlainAggregates(left) && PlainAggregates(right)
    case Sort(input, _) => PlainAggregates(input)
    case Limit(input, _, _) => PlainAggregates(input)
    case UnionAll(branches, _) => forall i :: 0 <= i < |branches| ==> PlainAggregates(branches[i])
    case _ => true
  }

  lemma RestoreResolves(lf: seq<Field>, rf: seq<Field>)
    ensures Restore(lf + rf, rf + lf).Some?
  {
    NamesConcat(lf, rf);
    NamesConcat(rf, lf);
    forall i | 0 <= i < |lf + rf| ensures LowerName((lf + rf)[i].name, rf + lf).Some? {
      assert (lf + rf)[i].name in Names(lf + rf);
      PositionKnown(rf + lf, (lf + rf)[i].name);
    }
  }

  /** Lowering a well-formed plan never hits an unresolved name. */
  lemma {:induction false} LowerSucceeds(w: World, p: Plan, est: Plan -> nat)
    requires Wf(p) && PlainAggregates(p)
    ensures Lower(p, est).Some?
    decreases p
  {
    match p {
      case Scan(_, _) =>
      case Values(_, _) =>
      case Filter(input, pred) =>
        LowerSucceeds(w, input, est);
        LowerExprMeaning(w, pred, Fields(input));
      case Project(input, exprs, _) =>
        LowerSucceeds(w, input, est);
        LowerEachMeaning(w, exprs, Fields(input), []);
      case Aggregate(input, exprs, _, _) =>
        LowerSucceeds(w, input, est);
        PositionsMeaning(w, exprs, Fields(input), []);
      case Join(left, right, _, on, _) =>
        LowerSucceeds(w, left, est);
        LowerSucceeds(w, right, est);
        LowerOnMeaning(w, on, Fields(left), Fields(right));
        LowerOnMeaning(w, Flip(on), Fields(right), Fields(left));
        RestoreResolves(Fields(left), Fields(right));
      case Sort(input, keys) =>
        LowerSucceeds(w, input, est);
        LowerKeysMeaning(w, keys, Fields(input), []);
      case Limit(input, limit, _) =>
        LowerSucceeds(w, input, est);
        if input.Sort? && limit.Some? {
          LowerSucceeds(w, input.input, est);
          LowerKeysMeaning(w, input.keys, Fields(input.input), []);
        }
      case UnionAll(branches, _) =>
        forall i | 0 <= i < |branches| ensures Lower(branches[i], est).Some? {
          LowerSucceeds(w, branches[i], est);
        }
    }
  }

  // ── Without swapped joins: the same rows in the same order ─────────────────

  ghost predicate Unswapped(p: Plan, est: Plan -> nat)
    decreases p
  {
    match p
    case Filter(input, _) => Unswapped(input, est)
    case Project(input, _, _) => Unswapped(input, est)
    case Aggregate(input, _, _, _) => Unswapped(input, est)
    case Join(left, right, _, _, _) => !Swaps(p, est) && Unswapped(left, est) && Unswapped(right, est)
    case Sort(input, _) => Unswapped(input, est)
    case Limit(input, _, _) => Unswapped(input, est)
    case UnionAll(branches, _) => forall i :: 0 <= i < |branches| ==> Unswapped(branches[i], est)
    case _ => true
  }

  /** Every ORDER BY ... LIMIT has an i64 limit and offset within the sound range, over no more
      rows than an i64 counts. */
  ghost predicate BoundsHold(w: World, p: Plan)
    decreases p
  {
    match p
    case Filter(input, _) => BoundsHold(w, input)
    case Project(input, _, _) => BoundsHold(w, input)
    case Aggregate(input, _, _, _) => BoundsHold(w, input)
    case Join(left, right, _, _, _) => BoundsHold(w, left) && BoundsHold(w, right)
    case Sort(input, _) => BoundsHold(w, input)
    case Limit(input, limit, offset) =>
      BoundsHold(w, input) && (limit.Some? && input.Sort? ==>
        && I64Min <= limit.value <= I64Max && I64Min <= offset <= I64Max
        && BoundHolds(limit.value, offset) && |Denote(w, input)| <= I64Max)
    case UnionAll(branches, _) => forall i :: 0 <= i < |branches| ==> BoundsHold(w, branches[i])
    case _ => true
  }

  ghost predicate Executes(w: World, p: Plan, est: Plan -> nat)
  {
    var e := Lower(p, est); e.Some? && Execute(w, e.value) == Denote(w, p)
  }

  lemma {:induction false} LowerExact(w: World, p: Plan, est: Plan -> nat)
    requires Wf(p) && PlainAggregates(p) && Unswapped(p, est) && BoundsHold(w, p)
    ensures Executes(w, p, est)
    decreases p
  {
    match p {
      case Scan(_, _) => ScanSame(w, p, est);
      case Values(_, _) =>
      case Filter(input, _) => LowerExact(w, input, est); FilterSame(w, p, est);
      case Project(input, _, _) => LowerExact(w, input, est); ProjectSame(w, p, est);
      case Aggregate(input, _, _, _) => LowerExact(w, input, est); AggregateSame(w, p, est);
      case Join(left, right, _, _, _) =>
        LowerExact(w, left, est);
        LowerExact(w, right, est);
        JoinSame(w, p, est);
      case Sort(input, _) => LowerExact(w, input, est); SortSame(w, p, est);
      case Limit(input, limit, _) =>
        if input.Sort? && limit.Some? {
          LowerExact(w, input.input, est);
          LowerTopK(w, p, est);
        } else {
          LowerExact(w, input, est);
          LimitSame(w, p, est);
        }
      case UnionAll(branches, _) =>
        forall i | 0 <= i < |branches| ensures Executes(w, branches[i], est) { LowerExact(w, branches[i], est); }
        UnionSame(w, p, est);
    }
  }

  lemma ScanSame(w: World, p: Plan, est: Plan -> nat)
    requires p.Scan?
    ensures Executes(w, p, est)
  {
    var t, columns := w.tables(p.table), Lower(p, est).value.columns;
    forall i | 0 <= i < |t| ensures ReadColumns(t[i], columns) == ReadRow(t[i], p.fields) { }
  }

  /** What the lowered node computes over any input rows. */
  lemma FilterStep(w: World, p: Plan, est: Plan -> nat)
    requires p.Filter? && Wf(p) && Lower(p.input, est).Some?
    ensures Lower(p, est).Some?
    ensures Execute(w, Lower(p, est).value) == Select(w, p.pred, Fields(p.input), Execute(w, Lower(p.input, est).value))
  {
    var e := Lower(p.input, est).value;
    LowerExprMeaning(w, p.pred, Fields(p.input));
    PSelectSame(w, p.pred, Fields(p.input), LowerExpr(p.pred, Fields(p.input)).value, Execute(w, e));
  }

  lemma FilterSame(w: World, p: Plan, est: Plan -> nat)
    requires p.Filter? && Wf(p) && Executes(w, p.input, est)
    ensures Executes(w, p, est)
  {
    FilterStep(w, p, est);
  }

  lemma ProjectStep(w: World, p: Plan, est: Plan -> nat)
    requires p.Project? && Wf(p) && Lower(p.input, est).Some?
    ensures Lower(p, est).Some?
    ensures Execute(w, Lower(p, est).value) == EvalRows(w, p.exprs, Fields(p.input), Execute(w, Lower(p.input, est).value))
  {
    LowerEachMeaning(w, p.exprs, Fields(p.input), Execute(w, Lower(p.input, est).value));
  }

  lemma ProjectSame(w: World, p: Plan, est: Plan -> nat)
    requires p.Project? && Wf(p) && Executes(w, p.input, est)
    ensures Executes(w, p, est)
  {
    ProjectStep(w, p, est);
  }

  lemma AggregateStep(w: World, p: Plan, est: Plan -> nat)
    requires p.Aggregate? && Wf(p) && PlainAggregates(p) && Lower(p.input, est).Some?
    ensures Lower(p, est).Some?
    ensures Execute(w, Lower(p, est).value) ==
            FitRows(w.agg(p.spec, EvalRows(w, p.exprs, Fields(p.input), Execute(w, Lower(p.input, est).value))), |p.fields|)
  {
    PositionsMeaning(w, p.exprs, Fields(p.input), Execute(w, Lower(p.input, est).value));
  }

  lemma AggregateSame(w: World, p: Plan, est: Plan -> nat)
    requires p.Aggregate? && Wf(p) && PlainAggregates(p) && Executes(w, p.input, est)
    ensures Executes(w, p, est)
  {
    AggregateStep(w, p, est);
  }

  lemma JoinStep(w: World, p: Plan, est: Plan -> nat)
    requires p.Join? && Wf(p) && !Swaps(p, est) && Lower(p.left, est).Some? && Lower(p.right, est).Some?
    ensures Lower(p, est).Some?
    ensures Execute(w, Lower(p, est).value) ==
            JoinRows(w, p.kind, p.on, Fields(p.left), Fields(p.right),
                     Execute(w, Lower(p.left, est).value), Execute(w, Lower(p.right, est).value))
  {
    var lf, rf := Fields(p.left), Fields(p.right);
    LowerOnMeaning(w, p.on, lf, rf);
    PJoinSame(w, p.kind, p.on, lf, rf, LowerOn(p.on, lf, rf).value,
              Execute(w, Lower(p.left, est).value), Execute(w, Lower(p.right, est).value));
  }

  lemma JoinSame(w: World, p: Plan, est: Plan -> nat)
    requires p.Join? && Wf(p) && !Swaps(p, est) && Executes(w, p.left, est) && Executes(w, p.right, est)
    ensures Executes(w, p, est)
  {
    JoinStep(w, p, est);
  }

  lemma SortStep(w: World, p: Plan, est: Plan -> nat)
    requires p.Sort? && Wf(p) && Lower(p.input, est).Some?
    ensures Lower(p, est).Some?
    ensures Execute(w, Lower(p, est).value) ==
            Sorting.Sort(Execute(w, Lower(p.input, est).value), KeyLe(w, Fields(p.input), p.keys))
  {
    LowerKeysMeaning(w, p.keys, Fields(p.input), Execute(w, Lower(p.input, est).value));
  }

  lemma SortSame(w: World, p: Plan, est: Plan -> nat)
    requires p.Sort? && Wf(p) && Executes(w, p.input, est)
    ensures Executes(w, p, est)
  {
    SortStep(w, p, est);
  }

  lemma LimitSame(w: World, p: Plan, est: Plan -> nat)
    requires p.Limit? && !(p.input.Sort? && p.limit.Some?) && Executes(w, p.input, est)
    ensures Executes(w, p, est)
  {
  }

  lemma LowerTopK(w: World, p: Plan, est: Plan -> nat)
    requires p.Limit? && p.input.Sort? && p.limit.Some? && Wf(p) && BoundsHold(w, p)
    requires Executes(w, p.input.input, est)
    ensures Executes(w, p, est)
  {
    var input, n := p.input, p.limit.value;
    TopKExecutes(w, input, est, AtLeastZero(SaturatingAdd(n, p.offset)));
    TopKLimit(Denote(w, input), n, p.offset);
  }

  lemma TopKExecutes(w: World, p: Plan, est: Plan -> nat, k: nat)
    requires p.Sort? && Wf(p) && Executes(w, p.input, est)
    ensures LowerKeys(p.keys, Fields(p.input)).Some?
    ensures Execute(w, ETopK(Lower(p.input, est).value, LowerKeys(p.keys, Fields(p.input)).value, k)) == Sorting.Take(Denote(w, p), k)
  {
    LowerKeysMeaning(w, p.keys, Fields(p.input), Denote(w, p.input));
  }

  lemma UnionSame(w: World, p: Plan, est: Plan -> nat)
    requires p.UnionAll? && forall i :: 0 <= i < |p.branches| ==> Executes(w, p.branches[i], est)
    ensures Executes(w, p, est)
  {
    var branches := p.branches;
    assert Lower(p, est).Some?;
    var es := Lower(p, est).value.branches;
    forall i | 0 <= i < |branches| ensures Execute(w, es[i]) == Denote(w, branches[i]) {
      assert Executes(w, branches[i], est);
    }
    assert seq(|es|, i requires 0 <= i < |es| => Execute(w, es[i]))
        == seq(|branches|, i requires 0 <= i < |branches| => Denote(w, branches[i]));
  }

  // ── Operators over bags ────────────────────────────────────────────────────

  function Keeper(w: World, e: BExpr, fs: seq<Field>): Row -> seq<Row>
  {
    row => if Holds(w, e, fs, row) then [row] else []
  }

  lemma {:induction false} SelectFlat(w: World, e: BExpr, fs: seq<Field>, rows: seq<Row>)
    ensures Select(w, e, fs, rows) == FlatMap(rows, Keeper(w, e, fs))
  {
    if rows != [] { SelectFlat(w, e, fs, rows[1..]); }
  }

  function Maker(w: World, exprs: seq<BExpr>, fs: seq<Field>): Row -> seq<Row>
  {
    row => [EvalEach(w, exprs, fs, row)]
  }

  lemma {:induction false} EvalRowsFlat(w: World, exprs: seq<BExpr>, fs: seq<Field>, rows: seq<Row>)
    ensures EvalRows(w, exprs, fs, rows) == FlatMap(rows, Maker(w, exprs, fs))
  {
    if rows != [] {
      EvalRowsFlat(w, exprs, fs, rows[1..]);
      assert EvalRows(w, exprs, fs, rows) == [EvalEach(w, exprs, fs, rows[0])] + EvalRows(w, exprs, fs, rows[1..]);
    }
  }

  lemma EvalRowsBag(w: World, exprs: seq<BExpr>, fs: seq<Field>, xs: seq<Row>, ys: seq<Row>)
    requires multiset(xs) == multiset(ys)
    ensures multiset(EvalRows(w, exprs, fs, xs)) == multiset(EvalRows(w, exprs, fs, ys))
  {
    EvalRowsFlat(w, exprs, fs, xs);
    EvalRowsFlat(w, exprs, fs, ys);
    FlatMapBag(xs, ys, Maker(w, exprs, fs));
  }

  function Fitter(n: nat): Row -> seq<Row>
  {
    row => [Fit(row, n)]
  }

  lemma {:induction false} FitRowsFlat(rows: seq<Row>, n: nat)
    ensures FitRows(rows, n) == FlatMap(rows, Fitter(n))
  {
    if rows != [] {
      FitRowsFlat(rows[1..], n);
      assert FitRows(rows, n) == [Fit(rows[0], n)] + FitRows(rows[1..], n);
    }
  }

  lemma FitRowsBag(xs: seq<Row>, ys: seq<Row>, n: nat)
    requires multiset(xs) == multiset(ys)
    ensures multiset(FitRows(xs, n)) == multiset(FitRows(ys, n))
  {
    FitRowsFlat(xs, n);
    FitRowsFlat(ys, n);
    FlatMapBag(xs, ys, Fitter(n));
  }

  function Pair(w: World, on: seq<(string, string)>, lf: seq<Field>, rf: seq<Field>): (Row, Row) -> seq<Row>
  {
    (l: Row, r: Row) => if Matched(w, on, lf, rf, l, r) then [l + r] else []
  }

  lemma {:induction false} MatchesFlat(
    w: World, on: seq<(string, string)>, lf: seq<Field>, rf: seq<Field>, l: Row, rows: seq<Row>)
    ensures Matches(w, on, lf, rf, l, rows) == FlatMap(rows, With(l, Pair(w, on, lf, rf)))
  {
    if rows != [] { MatchesFlat(w, on, lf, rf, l, rows[1..]); }
  }

  function Probe(w: World, kind: JoinKind, on: seq<(string, string)>, lf: seq<Field>, rf: seq<Field>, right: seq<Row>): Row -> seq<Row>
  {
    l => JoinRow(w, kind, on, lf, rf, l, right)
  }

  lemma {:induction false} JoinFlat(
    w: World, kind: JoinKind, on: seq<(string, string)>, lf: seq<Field>, rf: seq<Field>, left: seq<Row>, right: seq<Row>)
    ensures JoinRows(w, kind, on, lf, rf, left, right) == FlatMap(left, Probe(w, kind, on, lf, rf, right))
    decreases |left|
  {
    if left != [] { JoinFlat(w, kind, on, lf, rf, left[1..], right); }
  }

  lemma JoinBag(
    w: World, kind: JoinKind, on: seq<(string, string)>, lf: seq<Field>, rf: seq<Field>,
    left: seq<Row>, right: seq<Row>, left': seq<Row>, right': seq<Row>)
    requires multiset(left) == multiset(left') && multiset(right) == multiset(right')
    ensures multiset(JoinRows(w, kind, on, lf, rf, left, right)) == multiset(JoinRows(w, kind, on, lf, rf, left', right'))
  {
    JoinFlat(w, kind, on, lf, rf, left, right);
    JoinFlat(w, kind, on, lf, rf, left', right');
    var f, g := Probe(w, kind, on, lf, rf, right), Probe(w, kind, on, lf, rf, right');
    forall l | l in left ensures multiset(f(l)) == multiset(g(l)) {
      ProbeBag(w, kind, on, lf, rf, l, right, right');
    }
    FlatMapSame(left, f, g);
    FlatMapBag(left, left', g);
  }

  lemma ProbeBag(
    w: World, kind: JoinKind, on: seq<(string, string)>, lf: seq<Field>, rf: seq<Field>, l: Row, right: seq<Row>, right': seq<Row>)
    requires multiset(right) == multiset(right')
    ensures multiset(JoinRow(w, kind, on, lf, rf, l, right)) == multiset(JoinRow(w, kind, on, lf, rf, l, right'))
  {
    MatchesFlat(w, on, lf, rf, l, right);
    MatchesFlat(w, on, lf, rf, l, right');
    FlatMapBag(right, right', With(l, Pair(w, on, lf, rf)));
    var a, b := Matches(w, on, lf, rf, l, right), Matches(w, on, lf, rf, l, right');
    assert |multiset(a)| == |a| && |multiset(b)| == |b|;
  }

  // ── Swapping an INNER join ─────────────────────────────────────────────────

  lemma {:induction false} WfDistinct(p: Plan)
    requires Wf(p)
    ensures DistinctNames(Fields(p))
    decreases p
  {
    match p {
      case Filter(input, _) => WfDistinct(input);
      case Sort(input, _) => WfDistinct(input);
      case Limit(input, _, _) => WfDistinct(input);
      case Join(left, right, _, _, _) =>
        WfDistinct(left);
        WfDistinct(right);
        var lf, rf := Fields(left), Fields(right);
        forall i, j | 0 <= i < |lf| && 0 <= j < |rf| ensures lf[i].name != rf[j].name {
          assert lf[i].name in Names(lf) && rf[j].name in Names(rf);
          assert PrefixOf(lf[i].name) in PrefixesOf(Names(lf)) && PrefixOf(rf[j].name) in PrefixesOf(Names(rf));
        }
      case _ =>
    }
  }

  lemma PositionOf(fs: seq<Field>, k: nat)
    requires DistinctNames(fs) && k < |fs|
    ensures Position(fs, fs[k].name) == k
  {
  }

  /** The restoring projection turns right ++ left back into left ++ right. */
  lemma RestoresRow(w: World, lf: seq<Field>, rf: seq<Field>, l: Row, r: Row)
    requires DistinctNames(lf + rf) && |l| == |lf| && |r| == |rf|
    ensures Restore(lf + rf, rf + lf).Some?
    ensures PEvalEach(w, Columns(Restore(lf + rf, rf + lf).value), r + l) == l + r
  {
    RestoreResolves(lf, rf);
    var fs, cols := lf + rf, Restore(lf + rf, rf + lf).value;
    forall k | 0 <= k < |fs| ensures At(r + l, cols[k]) == (l + r)[k] {
      var name := fs[k].name;
      PositionOf(fs, k);
      PositionConcat(lf, rf, name);
      PositionConcat(rf, lf, name);
      SidesApart(lf, rf, name);
    }
  }

  lemma SidesApart(lf: seq<Field>, rf: seq<Field>, name: string)
    requires DistinctNames(lf + rf)
    ensures Position(lf, name) == |lf| || Position(rf, name) == |rf|
  {
    forall i, j | 0 <= i < |lf| && 0 <= j < |rf| ensures lf[i].name != rf[j].name {
      assert lf[i] == (lf + rf)[i] && rf[j] == (lf + rf)[|lf| + j];
    }
  }

  lemma FlipMatches(w: World, on: seq<(string, string)>, lf: seq<Field>, rf: seq<Field>, l: Row, r: Row)
    requires EqIsSymmetric(w)
    ensures Matched(w, Flip(on), rf, lf, r, l) == Matched(w, on, lf, rf, l, r)
  {
    assert forall i :: 0 <= i < |on| ==> Flip(on)[i] == (on[i].1, on[i].0);
    if Matched(w, Flip(on), rf, lf, r, l) {
      forall i | 0 <= i < |on|
        ensures var a, b := Lookup(lf, l, on[i].0), Lookup(rf, r, on[i].1); !a.Null? && !b.Null? && w.cmp(Eq, a, b)
      {
        assert Flip(on)[i].0 == on[i].1;
      }
    }
  }

  /** Swapped and restored, one pair of rows at a time. */
  function SwappedPair(w: World, on: seq<(string, string)>, lf: seq<Field>, rf: seq<Field>, cols: seq<nat>): (Row, Row) -> seq<Row>
  {
    (r: Row, l: Row) => if Matched(w, Flip(on), rf, lf, r, l) then [PEvalEach(w, Columns(cols), r + l)] else []
  }

  lemma PEvalRowsAppend(w: World, exprs: seq<PExpr>, a: seq<Row>, b: seq<Row>)
    ensures PEvalRows(w, exprs, a + b) == PEvalRows(w, exprs, a) + PEvalRows(w, exprs, b)
  {
  }

  lemma {:induction false} RestoredMatches(
    w: World, on: seq<(string, string)>, lf: seq<Field>, rf: seq<Field>, cols: seq<nat>, r: Row, left: seq<Row>)
    ensures PEvalRows(w, Columns(cols), Matches(w, Flip(on), rf, lf, r, left)) ==
            FlatMap(left, With(r, SwappedPair(w, on, lf, rf, cols)))
  {
    if left != [] {
      RestoredMatches(w, on, lf, rf, cols, r, left[1..]);
      var first := if Matched(w, Flip(on), rf, lf, r, left[0]) then [r + left[0]] else [];
      PEvalRowsAppend(w, Columns(cols), first, Matches(w, Flip(on), rf, lf, r, left[1..]));
      assert PEvalRows(w, Columns(cols), first) == SwappedPair(w, on, lf, rf, cols)(r, left[0]);
    }
  }

  lemma {:induction false} RestoredJoin(
    w: World, on: seq<(string, string)>, lf: seq<Field>, rf: seq<Field>, cols: seq<nat>, left: seq<Row>, right: seq<Row>)
    ensures PEvalRows(w, Columns(cols), JoinRows(w, Inner, Flip(on), rf, lf, right, left)) ==
            FlatMap(right, Across(left, SwappedPair(w, on, lf, rf, cols)))
    decreases |right|
  {
    if right != [] {
      RestoredJoin(w, on, lf, rf, cols, left, right[1..]);
      RestoredMatches(w, on, lf, rf, cols, right[0], left);
      PEvalRowsAppend(w, Columns(cols), Matches(w, Flip(on), rf, lf, right[0], left),
                      JoinRows(w, Inner, Flip(on), rf, lf, right[1..], left));
    }
  }

  /** The original join as nested loops over pairs. */
  lemma InnerFlat(w: World, on: seq<(string, string)>, lf: seq<Field>, rf: seq<Field>, left: seq<Row>, right: seq<Row>)
    ensures JoinRows(w, Inner, on, lf, rf, left, right) == FlatMap(left, Across(right, Pair(w, on, lf, rf)))
  {
    JoinFlat(w, Inner, on, lf, rf, left, right);
    var f, g := Probe(w, Inner, on, lf, rf, right), Across(right, Pair(w, on, lf, rf));
    forall l | l in left ensures f(l) == g(l) { MatchesFlat(w, on, lf, rf, l, right); }
    FlatMapEqual(left, f, g);
  }

  lemma SwappedRow(
    w: World, on: seq<(string, string)>, lf: seq<Field>, rf: seq<Field>, cols: seq<nat>, left: seq<Row>, r: Row)
    requires EqIsSymmetric(w) && DistinctNames(lf + rf) && Arity(left, |lf|) && |r| == |rf|
    requires Restore(lf + rf, rf + lf) == Some(cols)
    ensures FlatMap(left, With(r, SwappedPair(w, on, lf, rf, cols))) == FlatMap(left, For(r, Pair(w, on, lf, rf)))
  {
    var h, g := With(r, SwappedPair(w, on, lf, rf, cols)), For(r, Pair(w, on, lf, rf));
    forall l | l in left ensures h(l) == g(l) {
      FlipMatches(w, on, lf, rf, l, r);
      RestoresRow(w, lf, rf, l, r);
    }
    FlatMapEqual(left, h, g);
  }

  /** An INNER join with its sides swapped, then restored, has the same rows with the same
      columns; only their order may differ. */
  lemma SwapPreservesRows(
    w: World, on: seq<(string, string)>, lf: seq<Field>, rf: seq<Field>, cols: seq<nat>, left: seq<Row>, right: seq<Row>)
    requires EqIsSymmetric(w) && DistinctNames(lf + rf) && Arity(left, |lf|) && Arity(right, |rf|)
    requires Restore(lf + rf, rf + lf) == Some(cols)
    ensures multiset(PEvalRows(w, Columns(cols), JoinRows(w, Inner, Flip(on), rf, lf, right, left)))
         == multiset(JoinRows(w, Inner, on, lf, rf, left, right))
  {
    var g := Pair(w, on, lf, rf);
    var f := Across(left, SwappedPair(w, on, lf, rf, cols));
    RestoredJoin(w, on, lf, rf, cols, left, right);
    InnerFlat(w, on, lf, rf, left, right);
    forall r | r in right ensures f(r) == Along(left, g)(r) { SwappedRow(w, on, lf, rf, cols, left, r); }
    FlatMapEqual(right, f, Along(left, g));
    Exchange(left, right, g);
  }

  // ── Whatever is swapped: the same bag of rows ──────────────────────────────

  /** COUNT, SUM and the like; not ARG_MIN, nor the collecting aggregates. */
  ghost predicate IgnoresOrder(w: World, spec: string)
  {
    forall a: seq<Row>, b: seq<Row> :: multiset(a) == multiset(b) ==> multiset(w.agg(spec, a)) == multiset(w.agg(spec, b))
  }

  /** No node whose result depends on row order: no LIMIT, and only aggregates that ignore it. */
  ghost predicate OrderFree(w: World, p: Plan)
    decreases p
  {
    match p
    case Filter(input, _) => OrderFree(w, input)
    case Project(input, _, _) => OrderFree(w, input)
    case Aggregate(input, _, spec, _) => IgnoresOrder(w, spec) && OrderFree(w, input)
    case Join(left, right, _, _, _) => OrderFree(w, left) && OrderFree(w, right)
    case Sort(input, _) => OrderFree(w, input)
    case Limit(_, _, _) => false
    case UnionAll(branches, _) => forall i :: 0 <= i < |branches| ==> OrderFree(w, branches[i])
    case _ => true
  }

  /** No swap below a node whose result depends on row order. */
  ghost predicate OrderSafe(w: World, p: Plan, est: Plan -> nat)
    decreases p
  {
    || (Unswapped(p, est) && BoundsHold(w, p))
    || match p
       case Filter(input, _) => OrderSafe(w, input, est)
       case Project(input, _, _) => OrderSafe(w, input, est)
       case Aggregate(input, _, spec, _) => IgnoresOrder(w, spec) && OrderSafe(w, input, est)
       case Join(left, right, _, _, _) => OrderSafe(w, left, est) && OrderSafe(w, right, est)
       case Sort(input, _) => OrderSafe(w, input, est)
       case Limit(_, _, _) => false
       case UnionAll(branches, _) => forall i :: 0 <= i < |branches| ==> OrderSafe(w, branches[i], est)
       case _ => true
  }

  lemma {:induction false} FreeIsSafe(w: World, p: Plan, est: Plan -> nat)
    requires OrderFree(w, p)
    ensures OrderSafe(w, p, est)
    decreases p
  {
    match p {
      case Filter(input, _) => FreeIsSafe(w, input, est);
      case Project(input, _, _) => FreeIsSafe(w, input, est);
      case Aggregate(input, _, _, _) => FreeIsSafe(w, input, est);
      case Join(left, right, _, _, _) => FreeIsSafe(w, left, est); FreeIsSafe(w, right, est);
      case Sort(input, _) => FreeIsSafe(w, input, est);
      case UnionAll(branches, _) =>
        forall i | 0 <= i < |branches| ensures OrderSafe(w, branches[i], est) { FreeIsSafe(w, branches[i], est); }
      case _ =>
    }
  }

  ghost predicate SameBag(w: World, p: Plan, est: Plan -> nat)
  {
    var e := Lower(p, est); e.Some? && multiset(Execute(w, e.value)) == multiset(Denote(w, p))
  }

  lemma FilterBag(w: World, p: Plan, est: Plan -> nat)
    requires p.Filter? && Wf(p) && SameBag(w, p.input, est)
    ensures SameBag(w, p, est)
  {
    FilterStep(w, p, est);
    var xs, ys := Execute(w, Lower(p.input, est).value), Denote(w, p.input);
    SelectFlat(w, p.pred, Fields(p.input), xs);
    SelectFlat(w, p.pred, Fields(p.input), ys);
    FlatMapBag(xs, ys, Keeper(w, p.pred, Fields(p.input)));
  }

  lemma ProjectBag(w: World, p: Plan, est: Plan -> nat)
    requires p.Project? && Wf(p) && SameBag(w, p.input, est)
    ensures SameBag(w, p, est)
  {
    ProjectStep(w, p, est);
    EvalRowsBag(w, p.exprs, Fields(p.input), Execute(w, Lower(p.input, est).value), Denote(w, p.input));
  }

  lemma AggregateBag(w: World, p: Plan, est: Plan -> nat)
    requires p.Aggregate? && Wf(p) && PlainAggregates(p) && IgnoresOrder(w, p.spec) && SameBag(w, p.input, est)
    ensures SameBag(w, p, est)
  {
    AggregateStep(w, p, est);
    var xs, ys := Execute(w, Lower(p.input, est).value), Denote(w, p.input);
    EvalRowsBag(w, p.exprs, Fields(p.input), xs, ys);
    FitRowsBag(w.agg(p.spec, EvalRows(w, p.exprs, Fields(p.input), xs)),
               w.agg(p.spec, EvalRows(w, p.exprs, Fields(p.input), ys)), |p.fields|);
  }

  lemma SortBag(w: World, p: Plan, est: Plan -> nat)
    requires p.Sort? && Wf(p) && SameBag(w, p.input, est)
    ensures SameBag(w, p, est)
  {
    SortStep(w, p, est);
    var le := KeyLe(w, Fields(p.input), p.keys);
    Sorting.InsertAllBag([], Execute(w, Lower(p.input, est).value), le);
    Sorting.InsertAllBag([], Denote(w, p.input), le);
  }

  lemma PlainJoinBag(w: World, p: Plan, est: Plan -> nat)
    requires p.Join? && Wf(p) && !Swaps(p, est) && SameBag(w, p.left, est) && SameBag(w, p.right, est)
    ensures SameBag(w, p, est)
  {
    JoinStep(w, p, est);
    JoinBag(w, p.kind, p.on, Fields(p.left), Fields(p.right),
            Execute(w, Lower(p.left, est).value), Execute(w, Lower(p.right, est).value), Denote(w, p.left), Denote(w, p.right));
  }

  lemma BagArity(xs: seq<Row>, ys: seq<Row>, n: nat)
    requires multiset(xs) == multiset(ys) && Arity(ys, n)
    ensures Arity(xs, n)
  {
    forall i | 0 <= i < |xs| ensures |xs[i]| == n {
      assert xs[i] in multiset(ys);
    }
  }

  lemma {:induction false} SwappedStep(w: World, p: Plan, est: Plan -> nat)
    requires p.Join? && Wf(p) && Swaps(p, est) && Lower(p.left, est).Some? && Lower(p.right, est).Some?
    ensures Lower(p, est).Some? && Restore(p.fields, Fields(p.right) + Fields(p.left)).Some?
    ensures Execute(w, Lower(p, est).value) ==
            PEvalRows(w, Columns(Restore(p.fields, Fields(p.right) + Fields(p.left)).value),
                      JoinRows(w, Inner, Flip(p.on), Fields(p.right), Fields(p.left),
                               Execute(w, Lower(p.right, est).value), Execute(w, Lower(p.left, est).value)))
  {
    var l, r := Lower(p.left, est).value, Lower(p.right, est).value;
    var on := LowerOn(Flip(p.on), Fields(p.right), Fields(p.left));
    SwappedLowers(p, est, w);
    FlippedJoin(w, p, Execute(w, r), Execute(w, l));
    ExecuteRestored(w, r, l, on.value, |Fields(p.left)|, Restore(p.fields, Fields(p.right) + Fields(p.left)).value);
  }

  lemma {:induction false} SwappedLowers(p: Plan, est: Plan -> nat, w: World)
    requires p.Join? && Wf(p) && Swaps(p, est) && Lower(p.left, est).Some? && Lower(p.right, est).Some?
    ensures var on, cols := LowerOn(Flip(p.on), Fields(p.right), Fields(p.left)), Restore(p.fields, Fields(p.right) + Fields(p.left));
            && on.Some? && cols.Some?
            && Lower(p, est) == Some(EProject(EJoin(Lower(p.right, est).value, Lower(p.left, est).value, Inner, on.value, |Fields(p.left)|),
                                              Columns(cols.value)))
  {
    RestoreResolves(Fields(p.left), Fields(p.right));
    LowerOnMeaning(w, Flip(p.on), Fields(p.right), Fields(p.left));
  }

  lemma {:induction false} ExecuteRestored(w: World, left: Exec, right: Exec, on: seq<(nat, nat)>, width: nat, cols: seq<nat>)
    ensures Execute(w, EProject(EJoin(left, right, Inner, on, width), Columns(cols))) ==
            PEvalRows(w, Columns(cols), PJoinRows(w, Inner, on, width, Execute(w, left), Execute(w, right)))
  {
    assert Execute(w, EJoin(left, right, Inner, on, width)) == PJoinRows(w, Inner, on, width, Execute(w, left), Execute(w, right));
  }

  lemma {:induction false} FlippedJoin(w: World, p: Plan, right: seq<Row>, left: seq<Row>)
    requires p.Join? && Wf(p)
    ensures LowerOn(Flip(p.on), Fields(p.right), Fields(p.left)).Some?
    ensures PJoinRows(w, Inner, LowerOn(Flip(p.on), Fields(p.right), Fields(p.left)).value, |Fields(p.left)|, right, left) ==
            JoinRows(w, Inner, Flip(p.on), Fields(p.right), Fields(p.left), right, left)
  {
    var lf, rf := Fields(p.left), Fields(p.right);
    LowerOnMeaning(w, Flip(p.on), rf, lf);
    PJoinSame(w, Inner, Flip(p.on), rf, lf, LowerOn(Flip(p.on), rf, lf).value, right, left);
  }

  lemma SwappedJoinBag(w: World, p: Plan, est: Plan -> nat)
    requires p.Join? && Wf(p) && Swaps(p, est) && EqIsSymmetric(w) && SameBag(w, p.left, est) && SameBag(w, p.right, est)
    ensures SameBag(w, p, est)
  {
    SwappedStep(w, p, est);
    var lf, rf := Fields(p.left), Fields(p.right);
    var l, r := Execute(w, Lower(p.left, est).value), Execute(w, Lower(p.right, est).value);
    DenoteArity(w, p.left);
    DenoteArity(w, p.right);
    BagArity(l, Denote(w, p.left), |lf|);
    BagArity(r, Denote(w, p.right), |rf|);
    WfDistinct(p);
    SwapPreservesRows(w, p.on, lf, rf, Restore(p.fields, rf + lf).value, l, r);
    JoinBag(w, Inner, p.on, lf, rf, l, r, Denote(w, p.left), Denote(w, p.right));
  }

  lemma {:induction false} ConcatBag(xs: seq<seq<Row>>, ys: seq<seq<Row>>)
    requires |xs| == |ys| && forall i :: 0 <= i < |xs| ==> multiset(xs[i]) == multiset(ys[i])
    ensures multiset(Concat(xs)) == multiset(Concat(ys))
  {
    if xs != [] { ConcatBag(xs[1..], ys[1..]); }
  }

  lemma UnionLowers(p: Plan, est: Plan -> nat)
    requires p.UnionAll? && forall i :: 0 <= i < |p.branches| ==> Lower(p.branches[i], est).Some?
    ensures Lower(p, est).Some? && Lower(p, est).value.EUnionAll? && |Lower(p, est).value.branches| == |p.branches|
    ensures forall i :: 0 <= i < |p.branches| ==> Lower(p, est).value.branches[i] == Lower(p.branches[i], est).value
  {
  }

  lemma BranchBags(w: World, es: seq<Exec>, ps: seq<Plan>)
    requires |es| == |ps| && forall i :: 0 <= i < |ps| ==> multiset(Execute(w, es[i])) == multiset(Denote(w, ps[i]))
    ensures multiset(Concat(seq(|es|, i requires 0 <= i < |es| => Execute(w, es[i]))))
         == multiset(Concat(seq(|ps|, i requires 0 <= i < |ps| => Denote(w, ps[i]))))
  {
    ConcatBag(seq(|es|, i requires 0 <= i < |es| => Execute(w, es[i])), seq(|ps|, i requires 0 <= i < |ps| => Denote(w, ps[i])));
  }

  lemma UnionRows(w: World, p: Plan, es: seq<Exec>)
    requires p.UnionAll? && |es| == |p.branches|
    requires forall i :: 0 <= i < |es| ==> multiset(Execute(w, es[i])) == multiset(Denote(w, p.branches[i]))
    ensures multiset(Execute(w, EUnionAll(es))) == multiset(Denote(w, p))
  {
    BranchBags(w, es, p.branches);
  }

  lemma UnionBag(w: World, p: Plan, est: Plan -> nat)
    requires p.UnionAll? && forall i :: 0 <= i < |p.branches| ==> SameBag(w, p.branches[i], est)
    ensures SameBag(w, p, est)
  {
    assert forall i :: 0 <= i < |p.branches| ==> Lower(p.branches[i], est).Some? by {
      forall i | 0 <= i < |p.branches| ensures Lower(p.branches[i], est).Some? { assert SameBag(w, p.branches[i], est); }
    }
    UnionLowers(p, est);
    var es := Lower(p, est).value.branches;
    assert forall i :: 0 <= i < |es| ==> multiset(Execute(w, es[i])) == multiset(Denote(w, p.branches[i])) by {
      forall i | 0 <= i < |es| ensures multiset(Execute(w, es[i])) == multiset(Denote(w, p.branches[i])) {
        assert SameBag(w, p.branches[i], est);
      }
    }
    UnionRows(w, p, es);
  }

  /** Whatever the estimates make the planner swap, the executed plan yields the same bag, unless a
      LIMIT or an aggregate that depends on row order is above the swap. */
  lemma {:induction false} LowerBag(w: World, p: Plan, est: Plan -> nat)
    requires Wf(p) && PlainAggregates(p) && OrderSafe(w, p, est) && EqIsSymmetric(w)
    ensures SameBag(w, p, est)
    decreases p, 1
  {
    if Unswapped(p, est) && BoundsHold(w, p) {
      LowerExact(w, p, est);
    } else {
      SwappedBag(w, p, est);
    }
  }

  lemma {:induction false} SwappedBag(w: World, p: Plan, est: Plan -> nat)
    requires Wf(p) && PlainAggregates(p) && OrderSafe(w, p, est) && EqIsSymmetric(w)
    requires !(Unswapped(p, est) && BoundsHold(w, p))
    ensures SameBag(w, p, est)
    decreases p, 0
  {
    match p {
      case Filter(input, _) => LowerBag(w, input, est); FilterBag(w, p, est);
      case Project(input, _, _) => LowerBag(w, input, est); ProjectBag(w, p, est);
      case Aggregate(input, _, _, _) => LowerBag(w, input, est); AggregateBag(w, p, est);
      case Join(left, right, _, _, _) =>
        LowerBag(w, left, est);
        LowerBag(w, right, est);
        if Swaps(p, est) { SwappedJoinBag(w, p, est); } else { PlainJoinBag(w, p, est); }
      case Sort(input, _) => LowerBag(w, input, est); SortBag(w, p, est);
      case UnionAll(branches, _) =>
        forall i | 0 <= i < |branches| ensures SameBag(w, branches[i], est) { LowerBag(w, branches[i], est); }
        UnionBag(w, p, est);
    }
  }

  // ── Which side is built ────────────────────────────────────────────────────

  /** A hash join of the two lowered sides, its right input the one that is built. */
  predicate Builds(e: Exec, probe: Option<Exec>, build: Option<Exec>)
  {
    var join := if e.EProject? then e.input else e;
    join.EJoin? && probe == Some(join.left) && build == Some(join.right)
  }

  /** An INNER join builds the side with the smaller estimate, the right one of equals; a LEFT join
      always its right side. */
  lemma {:induction false} SmallerSideIsBuilt(p: Plan, est: Plan -> nat)
    requires p.Join? && Lower(p, est).Some?
    ensures if p.kind == Inner && est(p.left) < est(p.right) then Builds(Lower(p, est).value, Lower(p.right, est), Lower(p.left, est))
            else Builds(Lower(p, est).value, Lower(p.left, est), Lower(p.right, est))
  {
  }

  /** ORDER BY with LIMIT never sorts everything: it keeps as many rows as can be asked for. */
  lemma {:induction false} LimitedSortIsTopK(p: Plan, est: Plan -> nat)
    requires p.Limit? && p.input.Sort? && p.limit.Some? && Lower(p, est).Some?
    requires 0 <= p.limit.value && 0 <= p.offset && p.limit.value + p.offset <= I64Max
    ensures var e := Lower(p, est).value;
            && e.ELimit? && e.limit == Some(p.limit.value) && e.offset == p.offset
            && e.input.ETopK? && e.input.k == p.limit.value + p.offset && Lower(p.input.input, est) == Some(e.input.input)
  {
  }
}
