/** Bound expressions and logical plans (src/sql/binder.rs) with their meaning: a plan denotes a
    sequence of rows, a predicate keeps the rows on which it is true under three-valued logic. */
module Relational {
  import opened Options
  import Sorting

  datatype Value = Null | Bool(b: bool) | Datum(n: int)
  type Row = seq<Value>

  datatype CmpOp = Eq | Ne | Lt | Le | Gt | Ge

  /** `Apply` stands for the remaining scalar forms (arithmetic, IN, BETWEEN, LIKE, CASE, CAST,
      functions): total functions of their arguments. */
  datatype BExpr =
    | Column(name: string)
    | Literal(v: Value)
    | Cmp(op: CmpOp, l: BExpr, r: BExpr)
    | And(parts: seq<BExpr>)
    | Or(parts: seq<BExpr>)
    | Not(e: BExpr)
    | IsNull(e: BExpr)
    | Apply(f: string, args: seq<BExpr>)

  datatype Width = Fixed(bytes: nat) | Variable
  datatype Field = Field(name: string, width: Width)

  datatype JoinKind = Inner | Left
  datatype SortKey = SortKey(name: string, desc: bool, nullsFirst: bool)

  /** An aggregate's `exprs` are its group keys, then every argument and FILTER condition;
      `spec` says how to fold them. */
  datatype Plan =
    | Scan(table: string, fields: seq<Field>)
    | Values(fields: seq<Field>, rows: seq<Row>)
    | Filter(input: Plan, pred: BExpr)
    | Project(input: Plan, exprs: seq<BExpr>, fields: seq<Field>)
    | Aggregate(input: Plan, exprs: seq<BExpr>, spec: string, fields: seq<Field>)
    | Join(left: Plan, right: Plan, kind: JoinKind, on: seq<(string, string)>, fields: seq<Field>)
    | Sort(input: Plan, keys: seq<SortKey>)
    | Limit(input: Plan, limit: Option<int>, offset: int)
    | UnionAll(branches: seq<Plan>, fields: seq<Field>)

  /** The stored tables, and the meaning of everything the rewrites treat as opaque. */
  datatype World = World(
    tables: string -> seq<map<string, Value>>,
    cmp: (CmpOp, Value, Value) -> bool,
    apply: (string, seq<Value>) -> Value,
    agg: (string, seq<Row>) -> seq<Row>,
    le: (seq<(bool, bool)>, Row, Row) -> bool)

  // ── Names ──────────────────────────────────────────────────────────────────

  function Fields(p: Plan): seq<Field>
  {
    match p
    case Filter(input, _) => Fields(input)
    case Sort(input, _) => Fields(input)
    case Limit(input, _, _) => Fields(input)
    case _ => p.fields
  }

  function Names(fs: seq<Field>): set<string>
  {
    set i | 0 <= i < |fs| :: fs[i].name
  }

  predicate DistinctNames(fs: seq<Field>)
  {
    forall i, j :: 0 <= i < j < |fs| ==> fs[i].name != fs[j].name
  }

  /** Everything before the first dot: the relation a column belongs to. */
  function PrefixOf(name: string): string
  {
    if name == [] || name[0] == '.' then [] else [name[0]] + PrefixOf(name[1..])
  }

  /** Everything after the first dot: the stored column's own name. */
  function RealName(name: string): string
  {
    if '.' !in name then name else AfterDot(name)
  }

  function AfterDot(name: string): string
  {
    if name == [] then [] else if name[0] == '.' then name[1..] else AfterDot(name[1..])
  }

  function PrefixesOf(names: set<string>): set<string>
  {
    set n | n in names :: PrefixOf(n)
  }

  function Cols(e: BExpr): set<string>
  {
    match e
    case Column(name) => {name}
    case Literal(_) => {}
    case Cmp(_, l, r) => Cols(l) + Cols(r)
    case And(parts) => set i, n | 0 <= i < |parts| && n in Cols(parts[i]) :: n
    case Or(parts) => set i, n | 0 <= i < |parts| && n in Cols(parts[i]) :: n
    case Not(x) => Cols(x)
    case IsNull(x) => Cols(x)
    case Apply(_, args) => set i, n | 0 <= i < |args| && n in Cols(args[i]) :: n
  }

  // ── Scalar meaning ─────────────────────────────────────────────────────────

  function Position(fs: seq<Field>, name: string): (i: nat)
    ensures i <= |fs|
    ensures i < |fs| ==> fs[i].name == name
    ensures forall j :: 0 <= j < i ==> fs[j].name != name
  {
    if fs == [] || fs[0].name == name then 0 else 1 + Position(fs[1..], name)
  }

  function Lookup(fs: seq<Field>, row: Row, name: string): Value
  {
    var i := Position(fs, name);
    if i < |fs| && i < |row| then row[i] else Null
  }

  function And3(a: Value, b: Value): Value
  {
    if a == Bool(false) || b == Bool(false) then Bool(false)
    else if a == Bool(true) && b == Bool(true) then Bool(true)
    else Null
  }

  function Or3(a: Value, b: Value): Value
  {
    if a == Bool(true) || b == Bool(true) then Bool(true)
    else if a == Bool(false) && b == Bool(false) then Bool(false)
    else Null
  }

  function AndAll(vs: seq<Value>): (r: Value)
    ensures r == Bool(true) <==> forall i :: 0 <= i < |vs| ==> vs[i] == Bool(true)
  {
    if vs == [] then Bool(true) else And3(vs[0], AndAll(vs[1..]))
  }

  function OrAll(vs: seq<Value>): Value
  {
    if vs == [] then Bool(false) else Or3(vs[0], OrAll(vs[1..]))
  }

  function Eval(w: World, e: BExpr, fs: seq<Field>, row: Row): Value
    decreases e
  {
    match e
    case Column(name) => Lookup(fs, row, name)
    case Literal(v) => v
    case Cmp(op, l, r) =>
      var a, b := Eval(w, l, fs, row), Eval(w, r, fs, row);
      if a.Null? || b.Null? then Null else Bool(w.cmp(op, a, b))
    case And(parts) => AndAll(seq(|parts|, i requires 0 <= i < |parts| => Eval(w, parts[i], fs, row)))
    case Or(parts) => OrAll(seq(|parts|, i requires 0 <= i < |parts| => Eval(w, parts[i], fs, row)))
    case Not(x) =>
      var v := Eval(w, x, fs, row);
      if v.Bool? then Bool(!v.b) else Null
    case IsNull(x) => Bool(Eval(w, x, fs, row).Null?)
    case Apply(f, args) => w.apply(f, seq(|args|, i requires 0 <= i < |args| => Eval(w, args[i], fs, row)))
  }

  predicate Truth(v: Value)
  {
    v.Bool? || v.Null?
  }

  /** AND is false when a part is, true when all are, and else unknown; OR is true when a part is,
      false when all are, and else unknown. */
  lemma {:induction false} LogicIsKleene(vs: seq<Value>)
    requires forall i :: 0 <= i < |vs| ==> Truth(vs[i])
    ensures AndAll(vs) == if Bool(false) in vs then Bool(false) else if Null in vs then Null else Bool(true)
    ensures OrAll(vs) == if Bool(true) in vs then Bool(true) else if Null in vs then Null else Bool(false)
  {
    if vs != [] {
      LogicIsKleene(vs[1..]);
      assert vs == [vs[0]] + vs[1..];
      assert vs[0] == Bool(true) || vs[0] == Bool(false) || vs[0] == Null;
    }
  }

  predicate Holds(w: World, e: BExpr, fs: seq<Field>, row: Row)
  {
    Eval(w, e, fs, row) == Bool(true)
  }

  // ── Relational meaning ─────────────────────────────────────────────────────

  function Select(w: World, e: BExpr, fs: seq<Field>, rows: seq<Row>): seq<Row>
  {
    if rows == [] then []
    else (if Holds(w, e, fs, rows[0]) then [rows[0]] else []) + Select(w, e, fs, rows[1..])
  }

  /** The join keys are equal and none is NULL. */
  predicate Matched(w: World, on: seq<(string, string)>, lf: seq<Field>, rf: seq<Field>, l: Row, r: Row)
  {
    forall i :: 0 <= i < |on| ==>
      var a, b := Lookup(lf, l, on[i].0), Lookup(rf, r, on[i].1);
      !a.Null? && !b.Null? && w.cmp(Eq, a, b)
  }

  ghost predicate EqIsSymmetric(w: World)
  {
    forall a, b :: w.cmp(Eq, a, b) == w.cmp(Eq, b, a)
  }

  function Matches(
    w: World, on: seq<(string, string)>, lf: seq<Field>, rf: seq<Field>, l: Row, rows: seq<Row>): seq<Row>
  {
    if rows == [] then []
    else (if Matched(w, on, lf, rf, l, rows[0]) then [l + rows[0]] else []) + Matches(w, on, lf, rf, l, rows[1..])
  }

  function Nulls(n: nat): Row
  {
    seq(n, _ => Null)
  }

  /** One left row's share of a join: its matches, or for LEFT its null-extended self. */
  function JoinRow(
    w: World, kind: JoinKind, on: seq<(string, string)>, lf: seq<Field>, rf: seq<Field>, l: Row, rows: seq<Row>): seq<Row>
  {
    var ms := Matches(w, on, lf, rf, l, rows);
    if kind == Left && ms == [] then [l + Nulls(|rf|)] else ms
  }

  function JoinRows(
    w: World, kind: JoinKind, on: seq<(string, string)>, lf: seq<Field>, rf: seq<Field>, left: seq<Row>, right: seq<Row>): seq<Row>
    decreases |left|
  {
    if left == [] then []
    else JoinRow(w, kind, on, lf, rf, left[0], right) + JoinRows(w, kind, on, lf, rf, left[1..], right)
  }

  function EvalEach(w: World, exprs: seq<BExpr>, fs: seq<Field>, row: Row): Row
  {
    seq(|exprs|, i requires 0 <= i < |exprs| => Eval(w, exprs[i], fs, row))
  }

  function EvalRows(w: World, exprs: seq<BExpr>, fs: seq<Field>, rows: seq<Row>): seq<Row>
  {
    seq(|rows|, i requires 0 <= i < |rows| => EvalEach(w, exprs, fs, rows[i]))
  }

  function Fit(row: Row, n: nat): Row
  {
    seq(n, i => if 0 <= i < |row| then row[i] else Null)
  }

  function FitRows(rows: seq<Row>, n: nat): seq<Row>
  {
    seq(|rows|, i requires 0 <= i < |rows| => Fit(rows[i], n))
  }

  function Directions(keys: seq<SortKey>): seq<(bool, bool)>
  {
    seq(|keys|, i requires 0 <= i < |keys| => (keys[i].desc, keys[i].nullsFirst))
  }

  function KeyOf(fs: seq<Field>, keys: seq<SortKey>, row: Row): Row
  {
    seq(|keys|, i requires 0 <= i < |keys| => Lookup(fs, row, keys[i].name))
  }

  function KeyLe(w: World, fs: seq<Field>, keys: seq<SortKey>): (Row, Row) -> bool
  {
    (a: Row, b: Row) => w.le(Directions(keys), KeyOf(fs, keys, a), KeyOf(fs, keys, b))
  }

  function Drop<T>(s: seq<T>, n: nat): seq<T>
  {
    if |s| <= n then [] else s[n..]
  }

  function AtLeastZero(n: int): nat
  {
    if n < 0 then 0 else n
  }

  function LimitRows<T>(rows: seq<T>, limit: Option<int>, offset: int): seq<T>
  {
    var rest := Drop(rows, AtLeastZero(offset));
    if limit.None? then rest else Sorting.Take(rest, AtLeastZero(limit.value))
  }

  function Concat<T>(xs: seq<seq<T>>): seq<T>
  {
    if xs == [] then [] else xs[0] + Concat(xs[1..])
  }

  function ReadRow(rec: map<string, Value>, fs: seq<Field>): Row
  {
    seq(|fs|, i requires 0 <= i < |fs| => Stored(rec, fs[i].name))
  }

  function Stored(rec: map<string, Value>, name: string): Value
  {
    var n := RealName(name);
    if n in rec then rec[n] else Null
  }

  /** A batch with no columns has no rows. */
  function ScanRows(table: seq<map<string, Value>>, fs: seq<Field>): seq<Row>
  {
    if fs == [] then [] else seq(|table|, i requires 0 <= i < |table| => ReadRow(table[i], fs))
  }

  function Denote(w: World, p: Plan): seq<Row>
    decreases p
  {
    match p
    case Scan(table, fs) => ScanRows(w.tables(table), fs)
    case Values(_, rows) => rows
    case Filter(input, pred) => Select(w, pred, Fields(input), Denote(w, input))
    case Project(input, exprs, _) => EvalRows(w, exprs, Fields(input), Denote(w, input))
    case Aggregate(input, exprs, spec, fs) =>
      FitRows(w.agg(spec, EvalRows(w, exprs, Fields(input), Denote(w, input))), |fs|)
    case Join(left, right, kind, on, _) =>
      JoinRows(w, kind, on, Fields(left), Fields(right), Denote(w, left), Denote(w, right))
    case Sort(input, keys) => Sorting.Sort(Denote(w, input), KeyLe(w, Fields(input), keys))
    case Limit(input, limit, offset) => LimitRows(Denote(w, input), limit, offset)
    case UnionAll(branches, _) =>
      Concat(seq(|branches|, i requires 0 <= i < |branches| => Denote(w, branches[i])))
  }

  // ── Well-formed plans ──────────────────────────────────────────────────────

  ghost predicate Reads(e: BExpr, fs: seq<Field>)
  {
    Cols(e) <= Names(fs)
  }

  /** What the binder guarantees: every name resolves, names are unique, and the two sides of a
      join belong to different relations. */
  ghost predicate Wf(p: Plan)
    decreases p
  {
    match p
    case Scan(_, fs) => fs != [] && DistinctNames(fs)
    case Values(fs, rows) => DistinctNames(fs) && forall i :: 0 <= i < |rows| ==> |rows[i]| == |fs|
    case Filter(input, pred) => Wf(input) && Reads(pred, Fields(input))
    case Project(input, exprs, fs) =>
      && Wf(input) && |exprs| == |fs| && DistinctNames(fs)
      && forall i :: 0 <= i < |exprs| ==> Reads(exprs[i], Fields(input))
    case Aggregate(input, exprs, _, fs) =>
      Wf(input) && DistinctNames(fs) && forall i :: 0 <= i < |exprs| ==> Reads(exprs[i], Fields(input))
    case Join(left, right, _, on, fs) =>
      && Wf(left) && Wf(right) && JoinFields(Fields(left), Fields(right), on) && fs == Fields(left) + Fields(right)
    case Sort(input, keys) => Wf(input) && forall i :: 0 <= i < |keys| ==> keys[i].name in Names(Fields(input))
    case Limit(input, _, _) => Wf(input)
    case UnionAll(branches, fs) =>
      DistinctNames(fs) && forall i :: 0 <= i < |branches| ==> Wf(branches[i]) && |Fields(branches[i])| == |fs|
  }

  ghost predicate JoinFields(lf: seq<Field>, rf: seq<Field>, on: seq<(string, string)>)
  {
    && PrefixesOf(Names(lf)) !! PrefixesOf(Names(rf))
    && forall i :: 0 <= i < |on| ==> on[i].0 in Names(lf) && on[i].1 in Names(rf)
  }

  ghost predicate Arity(rows: seq<Row>, n: nat)
  {
    forall i :: 0 <= i < |rows| ==> |rows[i]| == n
  }

  // ── Evaluation only reads the columns it names ─────────────────────────────

  lemma {:induction false} EvalDepends(w: World, e: BExpr, fs: seq<Field>, row: Row, fs': seq<Field>, row': Row)
    requires forall n :: n in Cols(e) ==> Lookup(fs, row, n) == Lookup(fs', row', n)
    ensures Eval(w, e, fs, row) == Eval(w, e, fs', row')
    decreases e
  {
    match e {
      case Column(_) =>
      case Literal(_) =>
      case Cmp(_, l, r) =>
        EvalDepends(w, l, fs, row, fs', row');
        EvalDepends(w, r, fs, row, fs', row');
      case And(parts) => EvalDependsAll(w, e, parts, fs, row, fs', row');
      case Or(parts) => EvalDependsAll(w, e, parts, fs, row, fs', row');
      case Not(x) => EvalDepends(w, x, fs, row, fs', row');
      case IsNull(x) => EvalDepends(w, x, fs, row, fs', row');
      case Apply(_, args) => EvalDependsAll(w, e, args, fs, row, fs', row');
    }
  }

  lemma {:induction false} EvalDependsAll(
    w: World, e: BExpr, parts: seq<BExpr>, fs: seq<Field>, row: Row, fs': seq<Field>, row': Row)
    requires forall i :: 0 <= i < |parts| ==> parts[i] < e
    requires forall i, n :: 0 <= i < |parts| && n in Cols(parts[i]) ==> Lookup(fs, row, n) == Lookup(fs', row', n)
    ensures seq(|parts|, i requires 0 <= i < |parts| => Eval(w, parts[i], fs, row))
         == seq(|parts|, i requires 0 <= i < |parts| => Eval(w, parts[i], fs', row'))
    decreases e, 0
  {
    forall i | 0 <= i < |parts| ensures Eval(w, parts[i], fs, row) == Eval(w, parts[i], fs', row') {
      EvalDepends(w, parts[i], fs, row, fs', row');
    }
  }

  lemma PositionKnown(fs: seq<Field>, name: string)
    ensures name in Names(fs) <==> Position(fs, name) < |fs|
  {
    var i := Position(fs, name);
    if i < |fs| { assert fs[i].name in Names(fs); }
  }

  lemma {:induction false} PositionConcat(a: seq<Field>, b: seq<Field>, name: string)
    ensures Position(a + b, name) == if Position(a, name) < |a| then Position(a, name) else |a| + Position(b, name)
  {
    if a == [] {
      assert a + b == b;
    } else {
      assert (a + b)[1..] == a[1..] + b;
      PositionConcat(a[1..], b, name);
    }
  }

  /** In a joined row, a column of one side reads that side. */
  lemma LookupJoined(lf: seq<Field>, rf: seq<Field>, l: Row, r: Row, name: string)
    requires |l| == |lf| && |r| == |rf|
    ensures Lookup(lf + rf, l + r, name) == if name in Names(lf) then Lookup(lf, l, name) else Lookup(rf, r, name)
  {
    PositionConcat(lf, rf, name);
    PositionKnown(lf, name);
    PositionKnown(rf, name);
  }

  /** A predicate whose relations all lie on the right reads only the right half. */
  lemma HoldsOnRight(w: World, e: BExpr, lf: seq<Field>, rf: seq<Field>, l: Row, r: Row)
    requires |l| == |lf| && |r| == |rf| && PrefixesOf(Names(lf)) !! PrefixesOf(Names(rf))
    requires PrefixesOf(Cols(e)) <= PrefixesOf(Names(rf))
    ensures Eval(w, e, lf + rf, l + r) == Eval(w, e, rf, r)
  {
    assert forall m :: m in Names(lf) ==> PrefixOf(m) in PrefixesOf(Names(lf));
    forall n | n in Cols(e) ensures Lookup(lf + rf, l + r, n) == Lookup(rf, r, n) {
      LookupJoined(lf, rf, l, r, n);
      assert PrefixOf(n) in PrefixesOf(Cols(e));
    }
    EvalDepends(w, e, lf + rf, l + r, rf, r);
  }

  lemma HoldsOnLeft(w: World, e: BExpr, lf: seq<Field>, rf: seq<Field>, l: Row, r: Row)
    requires |l| == |lf| && |r| == |rf| && Reads(e, lf)
    ensures Eval(w, e, lf + rf, l + r) == Eval(w, e, lf, l)
  {
    forall n | n in Cols(e) ensures Lookup(lf + rf, l + r, n) == Lookup(lf, l, n) {
      LookupJoined(lf, rf, l, r, n);
    }
    EvalDepends(w, e, lf + rf, l + r, lf, l);
  }

  /** Relations decide sides: a resolved column with a right-hand prefix is a right-hand column. */
  lemma PrefixDecides(e: BExpr, side: seq<Field>, other: seq<Field>, fs: seq<Field>)
    requires Names(fs) == Names(side) + Names(other) && Reads(e, fs)
    requires PrefixesOf(Names(side)) !! PrefixesOf(Names(other)) && PrefixesOf(Cols(e)) <= PrefixesOf(Names(side))
    ensures Reads(e, side)
  {
    forall n | n in Cols(e) ensures n in Names(side) {
      assert PrefixOf(n) in PrefixesOf(Cols(e));
      if n in Names(other) { assert PrefixOf(n) in PrefixesOf(Names(other)); }
    }
  }

  lemma NamesConcat(a: seq<Field>, b: seq<Field>)
    ensures Names(a + b) == Names(a) + Names(b)
  {
    forall n | n in Names(a) ensures n in Names(a + b) {
      var i :| 0 <= i < |a| && a[i].name == n;
      assert (a + b)[i].name == n;
    }
    forall n | n in Names(b) ensures n in Names(a + b) {
      var i :| 0 <= i < |b| && b[i].name == n;
      assert (a + b)[|a| + i].name == n;
    }
    forall n | n in Names(a + b) ensures n in Names(a) + Names(b) {
      var i :| 0 <= i < |a + b| && (a + b)[i].name == n;
      if i >= |a| { assert b[i - |a|].name == n; }
    }
  }

  // ── Every row has as many values as the plan has fields ────────────────────

  lemma {:induction false} SelectArity(w: World, e: BExpr, fs: seq<Field>, rows: seq<Row>, n: nat)
    requires Arity(rows, n)
    ensures Arity(Select(w, e, fs, rows), n)
  {
    if rows != [] { SelectArity(w, e, fs, rows[1..], n); }
  }

  lemma {:induction false} MatchesArity(
    w: World, on: seq<(string, string)>, lf: seq<Field>, rf: seq<Field>, l: Row, rows: seq<Row>)
    requires |l| == |lf| && Arity(rows, |rf|)
    ensures Arity(Matches(w, on, lf, rf, l, rows), |lf| + |rf|)
  {
    if rows != [] { MatchesArity(w, on, lf, rf, l, rows[1..]); }
  }

  lemma {:induction false} JoinArity(
    w: World, kind: JoinKind, on: seq<(string, string)>, lf: seq<Field>, rf: seq<Field>, left: seq<Row>, right: seq<Row>)
    requires Arity(left, |lf|) && Arity(right, |rf|)
    ensures Arity(JoinRows(w, kind, on, lf, rf, left, right), |lf| + |rf|)
    decreases |left|
  {
    if left != [] {
      MatchesArity(w, on, lf, rf, left[0], right);
      JoinArity(w, kind, on, lf, rf, left[1..], right);
    }
  }

  lemma {:induction false} ConcatArity(xs: seq<seq<Row>>, n: nat)
    requires forall i :: 0 <= i < |xs| ==> Arity(xs[i], n)
    ensures Arity(Concat(xs), n)
  {
    if xs != [] { ConcatArity(xs[1..], n); }
  }

  lemma {:induction false} InsertAllArity(s: seq<Row>, rows: seq<Row>, le: (Row, Row) -> bool, n: nat)
    requires Arity(s, n) && Arity(rows, n)
    ensures Arity(Sorting.InsertAll(s, rows, le), n)
    decreases |rows|
  {
    if rows != [] {
      var t := Sorting.Insert(s, rows[0], le);
      forall i | 0 <= i < |t| ensures |t[i]| == n {
        assert t[i] in multiset(t);
        assert t[i] in multiset(s) || t[i] == rows[0];
      }
      InsertAllArity(t, rows[1..], le, n);
    }
  }

  lemma {:induction false} DenoteArity(w: World, p: Plan)
    requires Wf(p)
    ensures Arity(Denote(w, p), |Fields(p)|)
    decreases p
  {
    match p {
      case Scan(_, _) =>
      case Values(_, _) =>
      case Filter(input, pred) =>
        DenoteArity(w, input);
        SelectArity(w, pred, Fields(input), Denote(w, input), |Fields(p)|);
      case Project(_, _, _) =>
      case Aggregate(_, _, _, _) =>
      case Join(left, right, kind, on, _) =>
        DenoteArity(w, left);
        DenoteArity(w, right);
        JoinArity(w, kind, on, Fields(left), Fields(right), Denote(w, left), Denote(w, right));
      case Sort(input, keys) =>
        DenoteArity(w, input);
        InsertAllArity([], Denote(w, input), KeyLe(w, Fields(input), keys), |Fields(p)|);
      case Limit(input, _, _) => DenoteArity(w, input);
      case UnionAll(branches, fs) =>
        forall i | 0 <= i < |branches| ensures Arity(Denote(w, branches[i]), |fs|) {
          DenoteArity(w, branches[i]);
        }
        ConcatArity(seq(|branches|, i requires 0 <= i < |branches| => Denote(w, branches[i])), |fs|);
    }
  }
}
