/** Zone maps and skip indexes (src/storage/prune.rs, src/storage/scan.rs, src/exec/column.rs): a
    segment or row group that pruning skips holds no row on which the predicate is true, so
    filtering the pruned scan equals filtering the full one. */
module Prune {
  import opened Options
  import opened Order
  import opened Seqs
  import B = Bitmaps
  import R = Relational
  import U = Fit

  type Row = seq<Value>

  /** `Other` stands for every form pruning knows nothing about. */
  datatype Expr =
    | Column(c: nat)
    | Literal(v: Value)
    | Cmp(op: R.CmpOp, l: Expr, r: Expr)
    | And(parts: seq<Expr>)
    | Or(parts: seq<Expr>)
    | Not(e: Expr)
    | IsNull(e: Expr)
    | IsNotNull(e: Expr)
    | InList(e: Expr, list: seq<Value>, negated: bool)
    | Between(e: Expr, low: Expr, high: Expr, negated: bool)
    | Other(meaning: Row -> Value)

  function Flip(op: R.CmpOp): R.CmpOp
  {
    match op
    case Lt => R.Gt
    case Gt => R.Lt
    case Le => R.Ge
    case Ge => R.Le
    case Eq => R.Eq
    case Ne => R.Ne
  }

  // ── Evaluation ─────────────────────────────────────────────────────────────

  function Cell(row: Row, c: nat): Value
  {
    if c < |row| then row[c] else Null
  }

  function Known(o: Option<bool>): Value
  {
    if o.Some? then Bool(o.value) else Null
  }

  function Negate(v: Value): Value
  {
    if v.Bool? then Bool(!v.b) else Null
  }

  function Kleene(a: Value, b: Value, decisive: bool): Value
  {
    if a == Bool(decisive) || b == Bool(decisive) then Bool(decisive)
    else if a == Bool(!decisive) && b == Bool(!decisive) then Bool(!decisive)
    else Null
  }

  /** `Eq` and `Ne` follow SQL equality, the orderings the total order; NULL gives NULL. */
  function Compare(op: R.CmpOp, a: Value, b: Value): Value
  {
    if a.Null? || b.Null? then Null
    else
      var o := TotalCmp(a, b);
      match op
      case Eq => Known(SqlEq(a, b))
      case Ne => Negate(Known(SqlEq(a, b)))
      case Lt => if o.None? then Null else Bool(o.value == Less)
      case Le => if o.None? then Null else Bool(o.value != Greater)
      case Gt => if o.None? then Null else Bool(o.value == Greater)
      case Ge => if o.None? then Null else Bool(o.value != Less)
  }

  function CompareAll(a: Value, list: seq<Value>): Value
  {
    if list == [] then Bool(false)
    else if |list| == 1 then Compare(R.Eq, a, list[0])
    else Kleene(CompareAll(a, list[..|list| - 1]), Compare(R.Eq, a, list[|list| - 1]), true)
  }

  /** A literal on the left is compared the other way round. */
  function EvalCmp(op: R.CmpOp, l: Expr, r: Expr, a: Value, b: Value): Value
  {
    if l.Literal? then Compare(Flip(op), b, a) else Compare(op, a, b)
  }

  function FoldAll(vs: seq<Value>, decisive: bool): Value
  {
    if vs == [] then Bool(!decisive)
    else if |vs| == 1 then vs[0]
    else Kleene(FoldAll(vs[..|vs| - 1], decisive), vs[|vs| - 1], decisive)
  }

  function Eval(e: Expr, row: Row): Value
    decreases e
  {
    match e
    case Column(c) => Cell(row, c)
    case Literal(v) => v
    case Cmp(op, l, r) => EvalCmp(op, l, r, Eval(l, row), Eval(r, row))
    case And(parts) => FoldAll(seq(|parts|, i requires 0 <= i < |parts| => Eval(parts[i], row)), false)
    case Or(parts) => FoldAll(seq(|parts|, i requires 0 <= i < |parts| => Eval(parts[i], row)), true)
    case Not(x) => Negate(Eval(x, row))
    case IsNull(x) => Bool(Eval(x, row).Null?)
    case IsNotNull(x) => Bool(!Eval(x, row).Null?)
    case InList(x, list, negated) =>
      var v := CompareAll(Eval(x, row), list);
      if negated then Negate(v) else v
    case Between(x, low, high, negated) =>
      var a, b, c := Eval(x, row), Eval(low, row), Eval(high, row);
      var v := Kleene(EvalCmp(R.Ge, x, low, a, b), EvalCmp(R.Le, x, high, a, c), false);
      if negated then Negate(v) else v
    case Other(meaning) => meaning(row)
  }

  predicate True(e: Expr, row: Row)
  {
    Eval(e, row) == Bool(true)
  }

  // ── The pruning rules ──────────────────────────────────────────────────────

  datatype Range = Range(rows: nat, nullCount: nat, min: Option<Value>, max: Option<Value>)
  type Stats = nat -> Option<Range>
  type Probe = (nat, Value) -> Option<bool>

  function CmpBound(bound: Option<Value>, v: Value): Option<Ordering>
  {
    if bound.Some? then TotalCmp(bound.value, v) else None
  }

  predicate CmpIsFalse(op: R.CmpOp, l: Expr, r: Expr, stats: Stats)
  {
    if l.Column? && r.Literal? then ColumnCmpIsFalse(op, l.c, r.v, stats)
    else if l.Literal? && r.Column? then ColumnCmpIsFalse(Flip(op), r.c, l.v, stats)
    else false
  }

  predicate ColumnCmpIsFalse(op: R.CmpOp, c: nat, v: Value, stats: Stats)
  {
    if v.Null? then true
    else if stats(c).None? then false
    else
      var range := stats(c).value;
      if range.nullCount == range.rows then true
      else if (op == R.Eq || op == R.Ne) && v == Float64(NaN) then false
      else OutsideRange(op, v, range)
  }

  predicate OutsideRange(op: R.CmpOp, v: Value, range: Range)
  {
    var lo, hi := CmpBound(range.min, v), CmpBound(range.max, v);
    match op
    case Eq =>
      || (range.min.Some? && TotalCmp(v, range.min.value) == Some(Less))
      || (range.max.Some? && TotalCmp(v, range.max.value) == Some(Greater))
    case Ne => lo == Some(Equal) && hi == Some(Equal)
    case Lt => lo == Some(Greater) || lo == Some(Equal)
    case Le => lo == Some(Greater)
    case Gt => hi == Some(Less) || hi == Some(Equal)
    case Ge => hi == Some(Less)
  }

  predicate BetweenIsFalse(x: Expr, low: Expr, high: Expr, stats: Stats)
  {
    && x.Column? && low.Literal? && high.Literal? && !low.v.Null? && !high.v.Null? && stats(x.c).Some?
    && var range := stats(x.c).value;
       || (range.min.Some? && TotalCmp(high.v, range.min.value) == Some(Less))
       || (range.max.Some? && TotalCmp(low.v, range.max.value) == Some(Greater))
  }

  predicate Outside(v: Value, range: Range)
  {
    && range.min.Some? && range.max.Some?
    && (TotalCmp(v, range.min.value) == Some(Less) || TotalCmp(v, range.max.value) == Some(Greater))
  }

  predicate InListIsFalse(x: Expr, list: seq<Value>, stats: Stats)
  {
    x.Column? && stats(x.c).Some? && forall i :: 0 <= i < |list| && !list[i].Null? ==> Outside(list[i], stats(x.c).value)
  }

  /** `in_list_is_false`'s early-exit loop. */
  method ListOutside(list: seq<Value>, range: Range) returns (r: bool)
    ensures r <==> forall i :: 0 <= i < |list| && !list[i].Null? ==> Outside(list[i], range)
  {
    var i := 0;
    while i < |list|
      invariant 0 <= i <= |list| && forall k :: 0 <= k < i && !list[k].Null? ==> Outside(list[k], range)
    {
      var v := list[i];
      if !v.Null? {
        if range.min.None? || range.max.None? { return false; }
        if TotalCmp(v, range.min.value) != Some(Less) && TotalCmp(v, range.max.value) != Some(Greater) { return false; }
      }
      i := i + 1;
    }
    return true;
  }

  predicate ConjunctIsFalse(e: Expr, stats: Stats)
    decreases e, 0
  {
    match e
    case Cmp(op, l, r) => CmpIsFalse(op, l, r, stats)
    case Between(x, low, high, negated) => !negated && BetweenIsFalse(x, low, high, stats)
    case InList(x, list, negated) => !negated && InListIsFalse(x, list, stats)
    case IsNull(x) => x.Column? && stats(x.c).Some? && stats(x.c).value.nullCount == 0
    case IsNotNull(x) => x.Column? && stats(x.c).Some? && stats(x.c).value.nullCount == stats(x.c).value.rows
    case Or(parts) => forall i :: 0 <= i < |parts| ==> !MayMatch(parts[i], stats)
    case _ => false
  }

  /** Nested ANDs are flattened into conjuncts; one false conjunct rejects. */
  predicate MayMatch(e: Expr, stats: Stats)
    decreases e, 1
  {
    if e.And? then forall i :: 0 <= i < |e.parts| ==> MayMatch(e.parts[i], stats)
    else !ConjunctIsFalse(e, stats)
  }

  predicate IndexEqIsFalse(l: Expr, r: Expr, probe: Probe)
  {
    || (l.Column? && r.Literal? && probe(l.c, r.v) == Some(false))
    || (l.Literal? && r.Column? && probe(r.c, l.v) == Some(false))
  }

  predicate IndexConjunctIsFalse(e: Expr, probe: Probe)
    decreases e, 0
  {
    match e
    case Cmp(op, l, r) => op == R.Eq && IndexEqIsFalse(l, r, probe)
    case InList(x, list, negated) =>
      !negated && x.Column? && forall i :: 0 <= i < |list| && !list[i].Null? ==> probe(x.c, list[i]) == Some(false)
    case Or(parts) => forall i :: 0 <= i < |parts| ==> !IndexMayMatch(parts[i], probe)
    case _ => false
  }

  predicate IndexMayMatch(e: Expr, probe: Probe)
    decreases e, 1
  {
    if e.And? then forall i :: 0 <= i < |e.parts| ==> IndexMayMatch(e.parts[i], probe)
    else !IndexConjunctIsFalse(e, probe)
  }

  // ── What statistics and indexes promise ────────────────────────────────────

  /** Column `c` of `rows` is of one type, and `range` bounds its non-null cells. */
  ghost predicate RangeOf(range: Range, rows: seq<Row>, c: nat, t: Type)
  {
    && (forall row :: row in rows ==> Cell(row, c).Null? || HasType(Cell(row, c), t))
    && (range.nullCount == 0 ==> forall row :: row in rows ==> !Cell(row, c).Null?)
    && (range.nullCount == range.rows ==> forall row :: row in rows ==> Cell(row, c).Null?)
    && (range.min.Some? || range.max.Some? ==> !t.TList?)
    && (range.min.Some? ==> HasType(range.min.value, t) && AllAbove(range.min.value, rows, c))
    && (range.max.Some? ==> HasType(range.max.value, t) && AllBelow(range.max.value, rows, c))
  }

  ghost predicate AllAbove(m: Value, rows: seq<Row>, c: nat)
  {
    forall row :: row in rows && !Cell(row, c).Null? ==> AtMost(m, Cell(row, c))
  }

  ghost predicate AllBelow(m: Value, rows: seq<Row>, c: nat)
  {
    forall row :: row in rows && !Cell(row, c).Null? ==> AtMost(Cell(row, c), m)
  }

  ghost predicate Bounds(range: Range, rows: seq<Row>, c: nat)
  {
    exists t :: RangeOf(range, rows, c, t)
  }

  ghost predicate StatsOk(stats: Stats, rows: seq<Row>)
  {
    forall c :: stats(c).Some? ==> Bounds(stats(c).value, rows, c)
  }

  /** The index may say "maybe" wrongly, never "no". */
  ghost predicate ProbeOk(probe: Probe, rows: seq<Row>)
  {
    forall c, v, row :: row in rows && SqlEq(Cell(row, c), v) == Some(true) ==> probe(c, v) != Some(false)
  }

  // ── Soundness ──────────────────────────────────────────────────────────────

  lemma SameKind(v: Value, m: Value, t: Type)
    requires HasType(m, t) && !t.TList? && (TotalCmp(v, m).Some? || TotalCmp(m, v).Some?)
    ensures HasType(v, t)
  {
  }

  /** A literal outside the range compares with a cell as it compares with the bound. */
  lemma BelowMin(v: Value, m: Value, a: Value, t: Type)
    requires HasType(m, t) && HasType(a, t) && !t.TList? && AtMost(m, a)
    ensures TotalCmp(v, m) == Some(Less) || TotalCmp(m, v) == Some(Greater) ==> TotalCmp(a, v) == Some(Greater)
    ensures TotalCmp(m, v) == Some(Equal) ==> TotalCmp(a, v) == Some(Greater) || TotalCmp(a, v) == Some(Equal)
  {
    if TotalCmp(v, m).Some? || TotalCmp(m, v).Some? {
      SameKind(v, m, t);
      CmpFlips(v, m, t);
      CmpFlips(v, a, t);
      CmpChains(v, m, a, t);
    }
  }

  lemma AboveMax(v: Value, m: Value, a: Value, t: Type)
    requires HasType(m, t) && HasType(a, t) && !t.TList? && AtMost(a, m)
    ensures TotalCmp(v, m) == Some(Greater) || TotalCmp(m, v) == Some(Less) ==> TotalCmp(a, v) == Some(Less)
    ensures TotalCmp(m, v) == Some(Equal) ==> TotalCmp(a, v) == Some(Less) || TotalCmp(a, v) == Some(Equal)
  {
    if TotalCmp(v, m).Some? || TotalCmp(m, v).Some? {
      SameKind(v, m, t);
      CmpFlips(v, m, t);
      CmpFlips(v, a, t);
      CmpChains(a, m, v, t);
    }
  }

  lemma CompareEquality(op: R.CmpOp, a: Value, v: Value)
    requires op == R.Eq || op == R.Ne
    ensures Compare(op, a, v) == Bool(true) ==> SqlEq(a, v) == Some(op == R.Eq)
  {
  }

  /** Outside the range, no non-null cell satisfies the comparison. */
  lemma OutsideNeverTrue(op: R.CmpOp, v: Value, range: Range, rows: seq<Row>, c: nat, t: Type, row: Row)
    requires RangeOf(range, rows, c, t) && row in rows && OutsideRange(op, v, range)
    requires (op == R.Eq || op == R.Ne) ==> v != Float64(NaN)
    ensures Compare(op, Cell(row, c), v) != Bool(true)
  {
    var a := Cell(row, c);
    if !a.Null? {
      OutsideOrder(op, v, range, a, t);
      if op == R.Eq || op == R.Ne {
        ComparableKind(op, v, range, t);
        EqualityFollows(a, v, t);
        CompareEquality(op, a, v);
      }
    }
  }

  lemma ComparableKind(op: R.CmpOp, v: Value, range: Range, t: Type)
    requires OutsideRange(op, v, range) && (range.min.Some? || range.max.Some? ==> !t.TList?)
    requires range.min.Some? ==> HasType(range.min.value, t)
    requires range.max.Some? ==> HasType(range.max.value, t)
    ensures HasType(v, t) && !t.TList?
  {
    if range.min.Some? && (TotalCmp(v, range.min.value).Some? || TotalCmp(range.min.value, v).Some?) {
      SameKind(v, range.min.value, t);
    } else {
      SameKind(v, range.max.value, t);
    }
  }

  /** How a cell within the range compares with a literal outside it. */
  lemma OutsideOrder(op: R.CmpOp, v: Value, range: Range, a: Value, t: Type)
    requires HasType(a, t) && OutsideRange(op, v, range) && (range.min.Some? || range.max.Some? ==> !t.TList?)
    requires range.min.Some? ==> HasType(range.min.value, t) && AtMost(range.min.value, a)
    requires range.max.Some? ==> HasType(range.max.value, t) && AtMost(a, range.max.value)
    ensures op == R.Eq ==> TotalCmp(a, v) == Some(Less) || TotalCmp(a, v) == Some(Greater)
    ensures op == R.Ne ==> TotalCmp(a, v) == Some(Equal)
    ensures op == R.Lt ==> TotalCmp(a, v) == Some(Greater) || TotalCmp(a, v) == Some(Equal)
    ensures op == R.Le ==> TotalCmp(a, v) == Some(Greater)
    ensures op == R.Gt ==> TotalCmp(a, v) == Some(Less) || TotalCmp(a, v) == Some(Equal)
    ensures op == R.Ge ==> TotalCmp(a, v) == Some(Less)
  {
    if range.min.Some? { BelowMin(v, range.min.value, a, t); }
    if range.max.Some? { AboveMax(v, range.max.value, a, t); }
  }

  /** Against anything but NaN, a scalar is SQL-equal exactly to what it compares Equal with. */
  lemma EqualityFollows(a: Value, v: Value, t: Type)
    requires HasType(a, t) && HasType(v, t) && !t.TList? && v != Float64(NaN)
    ensures SqlEq(a, v) == Some(true) <==> TotalCmp(a, v) == Some(Equal)
  {
    SqlEqAgrees(a, v, t);
    EqualIsDefinite(a, v, t);
  }

  /** Scalars equal to a definite value are definite. */
  lemma EqualIsDefinite(a: Value, v: Value, t: Type)
    requires HasType(a, t) && HasType(v, t) && !t.TList? && v != Float64(NaN)
    ensures Definite(v) && (TotalCmp(a, v) == Some(Equal) ==> Definite(a))
  {
  }

  lemma ColumnCmpSound(op: R.CmpOp, c: nat, v: Value, stats: Stats, rows: seq<Row>, row: Row)
    requires StatsOk(stats, rows) && row in rows && ColumnCmpIsFalse(op, c, v, stats)
    ensures Compare(op, Cell(row, c), v) != Bool(true)
  {
    if !v.Null? {
      var range := stats(c).value;
      assert Bounds(range, rows, c);
      var t :| RangeOf(range, rows, c, t);
      if range.nullCount != range.rows { OutsideNeverTrue(op, v, range, rows, c, t, row); }
    }
  }

  lemma BetweenSound(x: Expr, low: Expr, high: Expr, stats: Stats, rows: seq<Row>, row: Row)
    requires StatsOk(stats, rows) && row in rows && BetweenIsFalse(x, low, high, stats)
    ensures !True(Between(x, low, high, false), row)
  {
    var range := stats(x.c).value;
    assert Bounds(range, rows, x.c);
    var t :| RangeOf(range, rows, x.c, t);
    var a := Cell(row, x.c);
    assert Eval(x, row) == a && Eval(low, row) == low.v && Eval(high, row) == high.v;
    if !a.Null? {
      if range.min.Some? && TotalCmp(high.v, range.min.value) == Some(Less) {
        BelowMin(high.v, range.min.value, a, t);
        assert Compare(R.Le, a, high.v) == Bool(false);
      } else {
        AboveMax(low.v, range.max.value, a, t);
        assert Compare(R.Ge, a, low.v) == Bool(false);
      }
    }
  }

  lemma {:induction false} CompareAllTrue(a: Value, list: seq<Value>)
    requires CompareAll(a, list) == Bool(true)
    ensures exists i :: 0 <= i < |list| && Compare(R.Eq, a, list[i]) == Bool(true)
  {
    if |list| > 1 {
      var n := |list| - 1;
      if Compare(R.Eq, a, list[n]) != Bool(true) { CompareAllTrue(a, list[..n]); }
    }
  }

  lemma InListSound(x: Expr, list: seq<Value>, stats: Stats, rows: seq<Row>, row: Row)
    requires StatsOk(stats, rows) && row in rows && InListIsFalse(x, list, stats)
    ensures !True(InList(x, list, false), row)
  {
    var a, range := Cell(row, x.c), stats(x.c).value;
    assert Bounds(range, rows, x.c);
    var t :| RangeOf(range, rows, x.c, t);
    forall i | 0 <= i < |list| ensures Compare(R.Eq, a, list[i]) != Bool(true) {
      if !list[i].Null? && !a.Null? {
        assert Outside(list[i], range);
        OutsideListed(list[i], range, rows, x.c, t, row);
      }
    }
    assert Eval(x, row) == a;
    if CompareAll(a, list) == Bool(true) { CompareAllTrue(a, list); }
  }

  lemma OutsideListed(v: Value, range: Range, rows: seq<Row>, c: nat, t: Type, row: Row)
    requires RangeOf(range, rows, c, t) && row in rows && !Cell(row, c).Null? && Outside(v, range)
    ensures SqlEq(Cell(row, c), v) != Some(true)
  {
    var a := Cell(row, c);
    BelowMin(v, range.min.value, a, t);
    AboveMax(v, range.max.value, a, t);
    if TotalCmp(v, range.min.value).Some? { SameKind(v, range.min.value, t); } else { SameKind(v, range.max.value, t); }
    SqlEqAgrees(a, v, t);
  }

  lemma {:induction false} FoldOr(vs: seq<Value>)
    requires FoldAll(vs, true) == Bool(true)
    ensures exists i :: 0 <= i < |vs| && vs[i] == Bool(true)
  {
    if |vs| > 1 {
      var n := |vs| - 1;
      if vs[n] != Bool(true) {
        FoldOr(vs[..n]);
      }
    }
  }

  lemma {:induction false} FoldAnd(vs: seq<Value>, i: nat)
    requires FoldAll(vs, false) == Bool(true) && i < |vs|
    ensures vs[i] == Bool(true)
  {
    if |vs| > 1 && i < |vs| - 1 { FoldAnd(vs[..|vs| - 1], i); }
  }

  /** A conjunct the statistics refute is true on no row. */
  lemma {:induction false} ConjunctSound(e: Expr, stats: Stats, rows: seq<Row>, row: Row)
    requires StatsOk(stats, rows) && row in rows && ConjunctIsFalse(e, stats)
    ensures !True(e, row)
    decreases e, 0
  {
    match e {
      case Cmp(op, l, r) =>
        assert l.Column? ==> Eval(l, row) == Cell(row, l.c);
        assert r.Column? ==> Eval(r, row) == Cell(row, r.c);
        assert (l.Literal? ==> Eval(l, row) == l.v) && (r.Literal? ==> Eval(r, row) == r.v);
        if l.Column? && r.Literal? {
          ColumnCmpSound(op, l.c, r.v, stats, rows, row);
        } else {
          ColumnCmpSound(Flip(op), r.c, l.v, stats, rows, row);
        }
      case Between(x, low, high, _) => BetweenSound(x, low, high, stats, rows, row);
      case InList(x, list, _) => InListSound(x, list, stats, rows, row);
      case IsNull(x) =>
        assert Eval(x, row) == Cell(row, x.c);
        assert Bounds(stats(x.c).value, rows, x.c);
      case IsNotNull(x) =>
        assert Eval(x, row) == Cell(row, x.c);
        assert Bounds(stats(x.c).value, rows, x.c);
      case Or(parts) =>
        if True(e, row) {
          var vs := seq(|parts|, i requires 0 <= i < |parts| => Eval(parts[i], row));
          FoldOr(vs);
          var i :| 0 <= i < |vs| && vs[i] == Bool(true);
          MayMatchSound(parts[i], stats, rows, row);
        }
      case _ =>
    }
  }

  /** Zone maps: if `may_match` rejects, the predicate is true on no row — for every nesting of
      AND, OR, IN, BETWEEN and NULL tests, flipped literal, NaN and missing bound. */
  lemma {:induction false} MayMatchSound(e: Expr, stats: Stats, rows: seq<Row>, row: Row)
    requires StatsOk(stats, rows) && row in rows && True(e, row)
    ensures MayMatch(e, stats)
    decreases e, 1
  {
    if e.And? {
      var parts := e.parts;
      var vs := seq(|parts|, i requires 0 <= i < |parts| => Eval(parts[i], row));
      forall i | 0 <= i < |parts| ensures MayMatch(parts[i], stats) {
        FoldAnd(vs, i);
        assert vs[i] == Eval(parts[i], row);
        MayMatchSound(parts[i], stats, rows, row);
      }
    } else if ConjunctIsFalse(e, stats) {
      ConjunctSound(e, stats, rows, row);
    }
  }

  // ── What the evaluation means ──────────────────────────────────────────────

  /** A comparison read from the other side says the same. */
  lemma {:induction false} FlippedMeansSame(op: R.CmpOp, a: Value, b: Value, t: Type)
    requires (a.Null? || HasType(a, t)) && (b.Null? || HasType(b, t)) && !t.TList?
    ensures Compare(Flip(op), b, a) == Compare(op, a, b)
  {
    if !a.Null? && !b.Null? {
      CmpFlips(a, b, t);
      SqlEqAgrees(a, b, t);
      SqlEqAgrees(b, a, t);
      ScalarDecided(a, b, t);
      ScalarDecided(b, a, t);
    }
  }

  /** Comparisons follow the order of the values; equality of NaN is false, and NULL is unknown. */
  lemma {:induction false} CompareIs(op: R.CmpOp, a: Value, b: Value, t: Type)
    requires HasType(a, t) && HasType(b, t) && !t.TList?
    ensures Compare(op, a, b) == Bool(match op
                                      case Lt => Below(a, b, t)
                                      case Gt => Below(b, a, t)
                                      case Le => !Below(b, a, t)
                                      case Ge => !Below(a, b, t)
                                      case Eq => !Below(a, b, t) && !Below(b, a, t) && b != Float64(NaN)
                                      case Ne => Below(a, b, t) || Below(b, a, t) || b == Float64(NaN))
    ensures Compare(op, Null, b) == Null && Compare(op, a, Null) == Null
  {
    TotalCmpIs(a, b, t);
    BelowIsStrict(a, b, t);
    if op == R.Eq || op == R.Ne {
      NotEqualIs(a, b, t);
      SqlEqAgrees(a, b, t);
      ScalarDecided(a, b, t);
    }
  }

  lemma {:induction false} BelowIsStrict(a: Value, b: Value, t: Type)
    requires HasType(a, t) && HasType(b, t)
    ensures !(Below(a, b, t) && Below(b, a, t))
  {
    CmpIsLess(a, b, t);
    CmpIsLess(b, a, t);
    CmpFlips(a, b, t);
  }

  predicate Truth(v: Value)
  {
    v.Bool? || v.Null?
  }

  /** AND is false when a part is, true when all are, and else unknown; OR the other way round. */
  lemma {:induction false} FoldIsKleene(vs: seq<Value>, decisive: bool)
    requires forall i :: 0 <= i < |vs| ==> Truth(vs[i])
    ensures FoldAll(vs, decisive) == if Bool(decisive) in vs then Bool(decisive) else if Null in vs then Null else Bool(!decisive)
  {
    if |vs| == 1 {
      assert vs[0] in vs;
    } else if vs != [] {
      var init, last := vs[..|vs| - 1], vs[|vs| - 1];
      FoldIsKleene(init, decisive);
      assert vs == init + [last];
      assert Truth(last) && (last == Bool(decisive) || last == Bool(!decisive) || last == Null);
    }
  }

  function Equalities(a: Value, list: seq<Value>): seq<Value>
  {
    seq(|list|, i requires 0 <= i < |list| => Known(SqlEq(a, list[i])))
  }

  lemma {:induction false} CompareAllFolds(a: Value, list: seq<Value>)
    ensures CompareAll(a, list) == FoldAll(Equalities(a, list), true)
  {
    if |list| > 1 {
      var init := list[..|list| - 1];
      CompareAllFolds(a, init);
      assert Equalities(a, list)[..|list| - 1] == Equalities(a, init);
    }
    if list != [] { OneCompared(a, list[|list| - 1]); }
  }

  lemma {:induction false} OneCompared(a: Value, x: Value)
    ensures Compare(R.Eq, a, x) == Known(SqlEq(a, x))
  {
  }

  /** IN is true when an element is equal, false when all are unequal, and else unknown. */
  lemma {:induction false} InListIs(a: Value, list: seq<Value>)
    ensures CompareAll(a, list) == Bool(true) <==> exists i :: 0 <= i < |list| && SqlEq(a, list[i]) == Some(true)
    ensures CompareAll(a, list) == Bool(false) <==> forall i :: 0 <= i < |list| ==> SqlEq(a, list[i]) == Some(false)
    ensures Truth(CompareAll(a, list))
  {
    var vs := Equalities(a, list);
    CompareAllFolds(a, list);
    FoldIsKleene(vs, true);
    forall i | 0 <= i < |list| ensures Known(SqlEq(a, list[i])) in vs { assert vs[i] in vs; }
  }

  lemma {:induction false} EvalCmpIs(op: R.CmpOp, l: Expr, r: Expr, a: Value, b: Value)
    requires Compare(Flip(op), b, a) == Compare(op, a, b)
    ensures EvalCmp(op, l, r, a, b) == Compare(op, a, b)
  {
  }

  lemma {:induction false} EndIs(x: Expr, end: Expr, a: Value, b: Value, t: Type)
    requires HasType(a, t) && HasType(b, t) && !t.TList?
    ensures EvalCmp(R.Ge, x, end, a, b) == Bool(!Below(a, b, t))
    ensures EvalCmp(R.Le, x, end, a, b) == Bool(!Below(b, a, t))
  {
    FlippedMeansSame(R.Ge, a, b, t);
    FlippedMeansSame(R.Le, a, b, t);
    EvalCmpIs(R.Ge, x, end, a, b);
    EvalCmpIs(R.Le, x, end, a, b);
    CompareIs(R.Ge, a, b, t);
    CompareIs(R.Le, a, b, t);
  }

  /** BETWEEN takes both ends in, by the order of the values. */
  lemma {:induction false} BetweenIs(x: Expr, low: Expr, high: Expr, row: Row, t: Type)
    requires HasType(Eval(x, row), t) && HasType(Eval(low, row), t) && HasType(Eval(high, row), t) && !t.TList?
    ensures var a, b, c := Eval(x, row), Eval(low, row), Eval(high, row);
            && Eval(Between(x, low, high, false), row) == Bool(!Below(a, b, t) && !Below(c, a, t))
            && Eval(Between(x, low, high, true), row) == Bool(Below(a, b, t) || Below(c, a, t))
  {
    EndIs(x, low, Eval(x, row), Eval(low, row), t);
    EndIs(x, high, Eval(x, row), Eval(high, row), t);
  }

  // ── How much pruning skips ─────────────────────────────────────────────────

  ghost predicate Among(v: Value, rows: seq<Row>, c: nat)
  {
    exists row :: row in rows && Cell(row, c) == v
  }

  /** The range of a column as a segment records it: its bounds occur, its NULLs are counted. */
  ghost predicate TightRange(range: Range, rows: seq<Row>, c: nat, t: Type)
  {
    && RangeOf(range, rows, c, t) && !t.TList? && range.min.Some? && range.max.Some?
    && Among(range.min.value, rows, c) && Among(range.max.value, rows, c)
    && (range.nullCount != 0 ==> Among(Null, rows, c))
    && range.nullCount != range.rows
  }

  /** An ordering comparison with a literal, or `<>`, is skipped exactly when no row satisfies it. */
  lemma {:induction false} SkipsExactly(op: R.CmpOp, c: nat, v: Value, stats: Stats, rows: seq<Row>, t: Type)
    requires stats(c).Some? && TightRange(stats(c).value, rows, c, t) && HasType(v, t) && op != R.Eq
    ensures MayMatch(Cmp(op, Column(c), Literal(v)), stats) <==> exists row :: row in rows && True(Cmp(op, Column(c), Literal(v)), row)
    ensures MayMatch(Cmp(Flip(op), Literal(v), Column(c)), stats) <==> MayMatch(Cmp(op, Column(c), Literal(v)), stats)
  {
    var range := stats(c).value;
    CmpRule(op, c, v, stats);
    if OutsideRange(op, v, range) && !(op == R.Ne && v == Float64(NaN)) {
      NoRowSatisfies(op, c, v, range, rows, t);
    } else {
      SomeRowSatisfies(op, c, v, range, rows, t);
    }
  }

  /** Which rule decides. */
  lemma {:induction false} CmpRule(op: R.CmpOp, c: nat, v: Value, stats: Stats)
    requires stats(c).Some? && !v.Null? && stats(c).value.nullCount != stats(c).value.rows
    ensures MayMatch(Cmp(op, Column(c), Literal(v)), stats) <==>
              !OutsideRange(op, v, stats(c).value) || ((op == R.Eq || op == R.Ne) && v == Float64(NaN))
    ensures MayMatch(Cmp(Flip(op), Literal(v), Column(c)), stats) <==> MayMatch(Cmp(op, Column(c), Literal(v)), stats)
  {
    assert Flip(Flip(op)) == op;
    assert MayMatch(Cmp(op, Column(c), Literal(v)), stats) <==> !ColumnCmpIsFalse(op, c, v, stats);
    assert MayMatch(Cmp(Flip(op), Literal(v), Column(c)), stats) <==> !ColumnCmpIsFalse(op, c, v, stats);
  }

  lemma {:induction false} NoRowSatisfies(op: R.CmpOp, c: nat, v: Value, range: Range, rows: seq<Row>, t: Type)
    requires TightRange(range, rows, c, t) && OutsideRange(op, v, range) && op != R.Eq && !(op == R.Ne && v == Float64(NaN))
    ensures forall row :: row in rows ==> !True(Cmp(op, Column(c), Literal(v)), row)
  {
    forall row | row in rows ensures !True(Cmp(op, Column(c), Literal(v)), row) {
      EvalColumnCmp(op, c, v, row);
      OutsideNeverTrue(op, v, range, rows, c, t, row);
    }
  }

  lemma {:induction false} SomeRowSatisfies(op: R.CmpOp, c: nat, v: Value, range: Range, rows: seq<Row>, t: Type)
    requires TightRange(range, rows, c, t) && HasType(v, t) && op != R.Eq
    requires !OutsideRange(op, v, range) || (op == R.Ne && v == Float64(NaN))
    ensures exists row :: row in rows && True(Cmp(op, Column(c), Literal(v)), row)
  {
    var lowest :| lowest in rows && Cell(lowest, c) == range.min.value;
    var highest :| highest in rows && Cell(highest, c) == range.max.value;
    EvalColumnCmp(op, c, v, lowest);
    EvalColumnCmp(op, c, v, highest);
    BoundSatisfies(op, v, range, t);
    assert True(Cmp(op, Column(c), Literal(v)), lowest) || True(Cmp(op, Column(c), Literal(v)), highest);
  }

  lemma {:induction false} EvalColumnCmp(op: R.CmpOp, c: nat, v: Value, row: Row)
    ensures Eval(Cmp(op, Column(c), Literal(v)), row) == Compare(op, Cell(row, c), v)
  {
    assert Eval(Column(c), row) == Cell(row, c) && Eval(Literal(v), row) == v;
  }

  /** If the rule does not fire, the least or the greatest cell satisfies the comparison. */
  lemma {:induction false} BoundSatisfies(op: R.CmpOp, v: Value, range: Range, t: Type)
    requires range.min.Some? && range.max.Some? && HasType(range.min.value, t) && HasType(range.max.value, t) && HasType(v, t) && !t.TList?
    requires op != R.Eq && (!OutsideRange(op, v, range) || (v == Float64(NaN) && op == R.Ne))
    ensures Compare(op, range.min.value, v) == Bool(true) || Compare(op, range.max.value, v) == Bool(true)
  {
    CmpFlips(range.min.value, v, t);
    CmpFlips(range.max.value, v, t);
    if op == R.Ne {
      NotEqualIs(range.min.value, v, t);
      NotEqualIs(range.max.value, v, t);
    }
  }

  lemma {:induction false} NotEqualIs(a: Value, v: Value, t: Type)
    requires HasType(a, t) && HasType(v, t) && !t.TList?
    ensures Compare(R.Ne, a, v) == Bool(true) <==> v == Float64(NaN) || TotalCmp(a, v) != Some(Equal)
  {
    SqlEqAgrees(a, v, t);
    ScalarDecided(a, v, t);
    if v != Float64(NaN) { EqualIsDefinite(a, v, t); }
  }

  lemma {:induction false} ScalarDecided(a: Value, v: Value, t: Type)
    requires HasType(a, t) && HasType(v, t) && !t.TList?
    ensures SqlEq(a, v).Some?
  {
  }

  /** Equality is skipped exactly when the literal lies outside the range. */
  lemma {:induction false} EqualitySkips(c: nat, v: Value, stats: Stats, rows: seq<Row>, t: Type)
    requires stats(c).Some? && TightRange(stats(c).value, rows, c, t) && HasType(v, t) && v != Float64(NaN)
    ensures !MayMatch(Cmp(R.Eq, Column(c), Literal(v)), stats) <==>
              Below(v, stats(c).value.min.value, t) || Below(stats(c).value.max.value, v, t)
    ensures MayMatch(Cmp(R.Eq, Literal(v), Column(c)), stats) <==> MayMatch(Cmp(R.Eq, Column(c), Literal(v)), stats)
  {
    CmpRule(R.Eq, c, v, stats);
    BeyondIs(v, stats(c).value, t);
  }

  lemma {:induction false} GreaterIs(v: Value, m: Value, t: Type)
    requires HasType(v, t) && HasType(m, t)
    ensures TotalCmp(v, m) == Some(Greater) <==> Below(m, v, t)
  {
    CmpIsLess(m, v, t);
    CmpFlips(v, m, t);
  }

  /** Comparing with the bounds is lying outside them. */
  lemma {:induction false} BeyondIs(v: Value, range: Range, t: Type)
    requires range.min.Some? && range.max.Some? && HasType(range.min.value, t) && HasType(range.max.value, t) && HasType(v, t)
    ensures TotalCmp(v, range.min.value) == Some(Less) <==> Below(v, range.min.value, t)
    ensures TotalCmp(v, range.max.value) == Some(Greater) <==> Below(range.max.value, v, t)
  {
    CmpIsLess(v, range.min.value, t);
    GreaterIs(v, range.max.value, t);
  }

  lemma {:induction false} SomePassesNull(c: nat, stats: Stats, rows: seq<Row>, t: Type)
    requires stats(c).Some? && TightRange(stats(c).value, rows, c, t)
    ensures MayMatch(IsNull(Column(c)), stats) <==> Among(Null, rows, c)
  {
  }

  lemma {:induction false} SomePassesNotNull(c: nat, stats: Stats, rows: seq<Row>, t: Type)
    requires stats(c).Some? && TightRange(stats(c).value, rows, c, t)
    ensures MayMatch(IsNotNull(Column(c)), stats) && exists row :: row in rows && !Cell(row, c).Null?
  {
    var row :| row in rows && Cell(row, c) == stats(c).value.min.value;
  }

  /** NULL tests are skipped exactly when no row passes. */
  lemma {:induction false} NullTestsSkip(c: nat, stats: Stats, rows: seq<Row>, t: Type)
    requires stats(c).Some? && TightRange(stats(c).value, rows, c, t)
    ensures MayMatch(IsNull(Column(c)), stats) <==> exists row :: row in rows && True(IsNull(Column(c)), row)
    ensures MayMatch(IsNotNull(Column(c)), stats) && exists row :: row in rows && True(IsNotNull(Column(c)), row)
  {
    SomePassesNull(c, stats, rows, t);
    SomePassesNotNull(c, stats, rows, t);
    forall row
      ensures True(IsNull(Column(c)), row) <==> Cell(row, c).Null?
      ensures True(IsNotNull(Column(c)), row) <==> !Cell(row, c).Null?
    {
      assert Eval(Column(c), row) == Cell(row, c);
    }
  }

  /** BETWEEN is skipped exactly when the interval misses the range, IN when every listed value does. */
  lemma {:induction false} BetweenSkips(c: nat, low: Value, high: Value, stats: Stats, rows: seq<Row>, t: Type)
    requires stats(c).Some? && TightRange(stats(c).value, rows, c, t) && HasType(low, t) && HasType(high, t)
    ensures !MayMatch(Between(Column(c), Literal(low), Literal(high), false), stats) <==>
              Below(high, stats(c).value.min.value, t) || Below(stats(c).value.max.value, low, t)
  {
    BeyondIs(high, stats(c).value, t);
    BeyondIs(low, stats(c).value, t);
    assert MayMatch(Between(Column(c), Literal(low), Literal(high), false), stats) <==>
             !BetweenIsFalse(Column(c), Literal(low), Literal(high), stats);
  }

  lemma {:induction false} InListSkips(c: nat, list: seq<Value>, stats: Stats, rows: seq<Row>, t: Type)
    requires stats(c).Some? && TightRange(stats(c).value, rows, c, t)
    requires forall i :: 0 <= i < |list| ==> list[i].Null? || HasType(list[i], t)
    ensures !MayMatch(InList(Column(c), list, false), stats) <==>
              forall i :: 0 <= i < |list| && !list[i].Null? ==>
                Below(list[i], stats(c).value.min.value, t) || Below(stats(c).value.max.value, list[i], t)
  {
    forall i | 0 <= i < |list| && !list[i].Null?
      ensures Outside(list[i], stats(c).value) <==>
                Below(list[i], stats(c).value.min.value, t) || Below(stats(c).value.max.value, list[i], t)
    {
      BeyondIs(list[i], stats(c).value, t);
    }
    assert MayMatch(InList(Column(c), list, false), stats) <==> !InListIsFalse(Column(c), list, stats);
  }

  /** AND is skipped exactly when a part is, OR when all parts are. */
  lemma {:induction false} NestingSkips(parts: seq<Expr>, stats: Stats, probe: Probe)
    ensures MayMatch(And(parts), stats) <==> forall i :: 0 <= i < |parts| ==> MayMatch(parts[i], stats)
    ensures MayMatch(Or(parts), stats) <==> exists i :: 0 <= i < |parts| && MayMatch(parts[i], stats)
    ensures IndexMayMatch(And(parts), probe) <==> forall i :: 0 <= i < |parts| ==> IndexMayMatch(parts[i], probe)
    ensures IndexMayMatch(Or(parts), probe) <==> exists i :: 0 <= i < |parts| && IndexMayMatch(parts[i], probe)
  {
    var a, o := And(parts), Or(parts);
    assert a.parts == parts && o.parts == parts;
    assert MayMatch(o, stats) <==> !ConjunctIsFalse(o, stats);
    assert IndexMayMatch(o, probe) <==> !IndexConjunctIsFalse(o, probe);
  }

  /** An index skips exactly what it denies. */
  lemma {:induction false} IndexSkips(c: nat, v: Value, list: seq<Value>, probe: Probe)
    ensures IndexMayMatch(Cmp(R.Eq, Column(c), Literal(v)), probe) <==> probe(c, v) != Some(false)
    ensures IndexMayMatch(Cmp(R.Eq, Literal(v), Column(c)), probe) <==> probe(c, v) != Some(false)
    ensures IndexMayMatch(InList(Column(c), list, false), probe) <==> exists x :: x in list && !x.Null? && probe(c, x) != Some(false)
  {
    forall x | x in list ensures exists i :: 0 <= i < |list| && list[i] == x { }
  }

  lemma IndexEqSound(l: Expr, r: Expr, probe: Probe, rows: seq<Row>, row: Row)
    requires ProbeOk(probe, rows) && row in rows && IndexEqIsFalse(l, r, probe)
    ensures !True(Cmp(R.Eq, l, r), row)
  {
    assert l.Column? ==> Eval(l, row) == Cell(row, l.c);
    assert r.Column? ==> Eval(r, row) == Cell(row, r.c);
    assert (l.Literal? ==> Eval(l, row) == l.v) && (r.Literal? ==> Eval(r, row) == r.v);
    if l.Column? && r.Literal? && probe(l.c, r.v) == Some(false) {
      assert SqlEq(Cell(row, l.c), r.v) != Some(true);
    } else {
      assert SqlEq(Cell(row, r.c), l.v) != Some(true);
    }
  }

  lemma {:induction false} IndexConjunctSound(e: Expr, probe: Probe, rows: seq<Row>, row: Row)
    requires ProbeOk(probe, rows) && row in rows && IndexConjunctIsFalse(e, probe)
    ensures !True(e, row)
    decreases e, 0
  {
    match e {
      case Cmp(_, l, r) => IndexEqSound(l, r, probe, rows, row);
      case InList(x, list, _) =>
        assert Eval(x, row) == Cell(row, x.c);
        if True(e, row) {
          CompareAllTrue(Cell(row, x.c), list);
        }
      case Or(parts) =>
        if True(e, row) {
          var vs := seq(|parts|, i requires 0 <= i < |parts| => Eval(parts[i], row));
          FoldOr(vs);
          var i :| 0 <= i < |vs| && vs[i] == Bool(true);
          IndexMayMatchSound(parts[i], probe, rows, row);
        }
      case _ =>
    }
  }

  lemma {:induction false} IndexMayMatchSound(e: Expr, probe: Probe, rows: seq<Row>, row: Row)
    requires ProbeOk(probe, rows) && row in rows && True(e, row)
    ensures IndexMayMatch(e, probe)
    decreases e, 1
  {
    if e.And? {
      var parts := e.parts;
      var vs := seq(|parts|, i requires 0 <= i < |parts| => Eval(parts[i], row));
      forall i | 0 <= i < |parts| ensures IndexMayMatch(parts[i], probe) {
        FoldAnd(vs, i);
        assert vs[i] == Eval(parts[i], row);
        IndexMayMatchSound(parts[i], probe, rows, row);
      }
    } else if IndexConjunctIsFalse(e, probe) {
      IndexConjunctSound(e, probe, rows, row);
    }
  }

  // ── Where the statistics come from ─────────────────────────────────────────

  ghost predicate ValidityOk(validity: Option<seq<nat>>, len: nat)
  {
    validity.Some? ==> B.Packed(validity.value, len)
  }

  /** Which rows are valid: no bitmap means all. */
  ghost function ValidRows(validity: Option<seq<nat>>, len: nat): (r: seq<bool>)
    requires ValidityOk(validity, len)
    ensures |r| == len
  {
    if validity.None? then seq(len, _ => true)
    else
      assert len <= B.WordBits * |validity.value|;
      B.Unpack(validity.value, len)
  }

  ghost predicate TypedRows(vals: seq<Value>, valid: seq<bool>, t: Type)
  {
    |valid| == |vals| && forall i :: 0 <= i < |vals| && valid[i] ==> HasType(vals[i], t)
  }

  /** `v` is a valid row before `n`. */
  ghost predicate Occurs(vals: seq<Value>, valid: seq<bool>, n: nat, v: Value)
    requires n <= |vals| == |valid|
  {
    exists i :: 0 <= i < n && valid[i] && vals[i] == v
  }

  /** The bounds of the valid rows before `n`: the least and the greatest of them, if there is one. */
  ghost predicate MinMaxOf(vals: seq<Value>, valid: seq<bool>, n: nat, min: Option<Value>, max: Option<Value>, t: Type)
    requires n <= |vals| == |valid|
  {
    && (min.Some? <==> max.Some?)
    && (min.Some? ==> HasType(min.value, t) && HasType(max.value, t))
    && (min.Some? ==> Occurs(vals, valid, n, min.value) && Occurs(vals, valid, n, max.value))
    && forall i :: 0 <= i < n && valid[i] ==> min.Some? && AtMost(min.value, vals[i]) && AtMost(vals[i], max.value)
  }

  lemma SmallerOf(v: Value, m: Value, t: Type)
    requires HasType(v, t) && HasType(m, t)
    ensures var lo := if TotalCmp(v, m) == Some(Less) then v else m;
            AtMost(lo, v) && forall a :: HasType(a, t) && AtMost(m, a) ==> AtMost(lo, a)
  {
    TotalPreorderOnType(t, v, v, v);
    CmpFlips(v, m, t);
    forall a | HasType(a, t) && AtMost(m, a) ensures TotalCmp(v, m) == Some(Less) ==> AtMost(v, a) { CmpChains(v, m, a, t); }
  }

  lemma LargerOf(v: Value, m: Value, t: Type)
    requires HasType(v, t) && HasType(m, t)
    ensures var hi := if TotalCmp(v, m) == Some(Greater) then v else m;
            AtMost(v, hi) && forall a :: HasType(a, t) && AtMost(a, m) ==> AtMost(a, hi)
  {
    TotalPreorderOnType(t, v, v, v);
    CmpFlips(v, m, t);
    forall a | HasType(a, t) && AtMost(a, m) ensures TotalCmp(v, m) == Some(Greater) ==> AtMost(a, v) { CmpChains(a, m, v, t); }
  }

  /** `consider`: widens the bounds by one value. */
  method Consider(v: Value, min: Option<Value>, max: Option<Value>, ghost t: Type) returns (lo: Option<Value>, hi: Option<Value>)
    requires HasType(v, t) && (min.Some? <==> max.Some?)
    requires min.Some? ==> HasType(min.value, t) && HasType(max.value, t)
    ensures lo.Some? && hi.Some? && HasType(lo.value, t) && HasType(hi.value, t)
    ensures AtMost(lo.value, v) && AtMost(v, hi.value)
    ensures (lo == Some(v) || lo == min) && (hi == Some(v) || hi == max)
    ensures forall a :: HasType(a, t) && min.Some? && AtMost(min.value, a) ==> AtMost(lo.value, a)
    ensures forall a :: HasType(a, t) && max.Some? && AtMost(a, max.value) ==> AtMost(a, hi.value)
  {
    lo, hi := min, max;
    TotalPreorderOnType(t, v, v, v);
    if min.None? || TotalCmp(v, min.value) == Some(Less) { lo := Some(v); }
    if max.None? || TotalCmp(v, max.value) == Some(Greater) { hi := Some(v); }
    if min.Some? {
      SmallerOf(v, min.value, t);
      LargerOf(v, max.value, t);
    }
  }

  lemma MinMaxGrows(
    vals: seq<Value>, valid: seq<bool>, n: nat, min: Option<Value>, max: Option<Value>,
    lo: Option<Value>, hi: Option<Value>, t: Type)
    requires n < |vals| && TypedRows(vals, valid, t) && MinMaxOf(vals, valid, n, min, max, t)
    requires lo.Some? && hi.Some? && HasType(lo.value, t) && HasType(hi.value, t)
    requires AtMost(lo.value, vals[n]) && AtMost(vals[n], hi.value)
    requires (lo == Some(vals[n]) || lo == min) && (hi == Some(vals[n]) || hi == max) && valid[n]
    requires forall a :: HasType(a, t) && min.Some? && AtMost(min.value, a) ==> AtMost(lo.value, a)
    requires forall a :: HasType(a, t) && max.Some? && AtMost(a, max.value) ==> AtMost(a, hi.value)
    ensures MinMaxOf(vals, valid, n + 1, lo, hi, t)
  {
    StillOccurs(vals, valid, n, lo.value);
    StillOccurs(vals, valid, n, hi.value);
  }

  lemma {:induction false} StillOccurs(vals: seq<Value>, valid: seq<bool>, n: nat, v: Value)
    requires n < |vals| == |valid|
    ensures Occurs(vals, valid, n, v) || (valid[n] && vals[n] == v) ==> Occurs(vals, valid, n + 1, v)
  {
    if Occurs(vals, valid, n, v) {
      var i :| 0 <= i < n && valid[i] && vals[i] == v;
      assert i < n + 1;
    }
  }

  lemma {:induction false} MinMaxStays(
    vals: seq<Value>, valid: seq<bool>, n: nat, min: Option<Value>, max: Option<Value>, t: Type)
    requires n < |vals| == |valid| && !valid[n] && MinMaxOf(vals, valid, n, min, max, t)
    ensures MinMaxOf(vals, valid, n + 1, min, max, t)
  {
    if min.Some? {
      StillOccurs(vals, valid, n, min.value);
      StillOccurs(vals, valid, n, max.value);
    }
  }

  /** `consider` for row `i` of the scan. */
  method Widen(vals: seq<Value>, ghost valid: seq<bool>, i: nat, min: Option<Value>, max: Option<Value>, ghost t: Type)
    returns (lo: Option<Value>, hi: Option<Value>)
    requires i < |vals| && TypedRows(vals, valid, t) && valid[i] && MinMaxOf(vals, valid, i, min, max, t)
    ensures MinMaxOf(vals, valid, i + 1, lo, hi, t)
  {
    lo, hi := Consider(vals[i], min, max, t);
    MinMaxGrows(vals, valid, i, min, max, lo, hi, t);
  }

  /** The word's bits are the rows from `base` on. */
  ghost predicate WordHolds(word: nat, valid: seq<bool>, base: nat)
  {
    forall bit :: 0 <= bit < B.WordBits && base + bit < |valid| ==> valid[base + bit] == B.Bit(word, bit)
  }

  lemma WordOf(words: seq<nat>, len: nat, k: nat)
    requires B.Packed(words, len) && k < |words|
    ensures WordHolds(words[k], ValidRows(Some(words), len), k * B.WordBits)
  {
    var valid, base := ValidRows(Some(words), len), k * B.WordBits;
    forall bit | 0 <= bit < B.WordBits && base + bit < len ensures valid[base + bit] == B.Bit(words[k], bit) {
      assert (base + bit) / B.WordBits == k && (base + bit) % B.WordBits == bit;
    }
  }

  /** One validity word of the scan: the rows `base .. base + 64`, up to the column's end. */
  method ScanWord(
    vals: seq<Value>, word: nat, ghost valid: seq<bool>, base: nat, min: Option<Value>, max: Option<Value>, ghost t: Type)
    returns (lo: Option<Value>, hi: Option<Value>)
    requires TypedRows(vals, valid, t) && base < |vals| && WordHolds(word, valid, base)
    requires MinMaxOf(vals, valid, base, min, max, t)
    ensures MinMaxOf(vals, valid, Smaller(base + B.WordBits, |vals|), lo, hi, t)
  {
    lo, hi := min, max;
    var bit := 0;
    while bit < B.WordBits && base + bit < |vals|
      invariant 0 <= bit <= B.WordBits && base + bit <= |vals|
      invariant MinMaxOf(vals, valid, base + bit, lo, hi, t)
    {
      if B.Bit(word, bit) {
        lo, hi := Widen(vals, valid, base + bit, lo, hi, t);
      } else {
        MinMaxStays(vals, valid, base + bit, lo, hi, t);
      }
      bit := bit + 1;
    }
  }

  function Smaller(a: nat, b: nat): nat
  {
    if a < b then a else b
  }

  /** `scan_min_max`: with no bitmap every row, otherwise whole zero words are skipped. The
      bounds hold for every valid row. */
  method ScanMinMax(vals: seq<Value>, validity: Option<seq<nat>>, ghost t: Type)
    returns (min: Option<Value>, max: Option<Value>)
    requires ValidityOk(validity, |vals|) && TypedRows(vals, ValidRows(validity, |vals|), t)
    ensures MinMaxOf(vals, ValidRows(validity, |vals|), |vals|, min, max, t)
  {
    ghost var valid := ValidRows(validity, |vals|);
    min, max := None, None;
    if validity.None? {
      var i := 0;
      while i < |vals|
        invariant 0 <= i <= |vals| && MinMaxOf(vals, valid, i, min, max, t)
      {
        min, max := Widen(vals, valid, i, min, max, t);
        i := i + 1;
      }
    } else {
      min, max := ScanWords(vals, validity.value, valid, t);
    }
  }

  method ScanWords(vals: seq<Value>, words: seq<nat>, ghost valid: seq<bool>, ghost t: Type)
    returns (min: Option<Value>, max: Option<Value>)
    requires B.Packed(words, |vals|) && valid == ValidRows(Some(words), |vals|) && TypedRows(vals, valid, t)
    ensures MinMaxOf(vals, valid, |vals|, min, max, t)
  {
    min, max := None, None;
    var k, base := 0, 0;
    while k < |words|
      invariant 0 <= k <= |words| && base == k * B.WordBits
      invariant MinMaxOf(vals, valid, Smaller(base, |vals|), min, max, t)
    {
      WordOf(words, |vals|, k);
      if words[k] == 0 {
        NoRowInZeroWord(vals, valid, base, min, max, t);
      } else {
        min, max := ScanWord(vals, words[k], valid, base, min, max, t);
      }
      k, base := k + 1, base + B.WordBits;
    }
  }

  lemma NoRowInZeroWord(vals: seq<Value>, valid: seq<bool>, base: nat, min: Option<Value>, max: Option<Value>, t: Type)
    requires |valid| == |vals| && WordHolds(0, valid, base) && MinMaxOf(vals, valid, Smaller(base, |vals|), min, max, t)
    ensures MinMaxOf(vals, valid, Smaller(base + B.WordBits, |vals|), min, max, t)
  {
    var n, m := Smaller(base, |vals|), Smaller(base + B.WordBits, |vals|);
    forall i | base <= i < m ensures !valid[i] {
      B.ZeroBits(i - base);
      assert valid[base + (i - base)] == B.Bit(0, i - base);
    }
    forall v | Occurs(vals, valid, n, v) ensures Occurs(vals, valid, m, v) {
      var i :| 0 <= i < n && valid[i] && vals[i] == v;
      assert i < m;
    }
  }

  const StatsMaxBytes := 128

  /** Not a UTF-8 continuation byte. */
  predicate CharBoundary(s: seq<nat>, i: nat)
  {
    i == 0 || i >= |s| || s[i] / 64 != 2
  }

  method TruncateStr(s: seq<nat>, maxBytes: nat) returns (r: seq<nat>)
    ensures |r| <= maxBytes && r <= s && CharBoundary(s, |r|)
    ensures forall k :: |r| < k <= maxBytes && k <= |s| ==> !CharBoundary(s, k)
  {
    var cut := if maxBytes < |s| then maxBytes else |s|;
    while cut > 0 && !CharBoundary(s, cut)
      invariant 0 <= cut <= maxBytes && cut <= |s|
      invariant forall k :: cut < k <= maxBytes && k <= |s| ==> !CharBoundary(s, k)
    {
      cut := cut - 1;
    }
    r := s[..cut];
  }

  lemma {:induction false} PrefixIsSmaller(p: seq<nat>, s: seq<nat>)
    requires p <= s
    ensures BytesCmp(p, s) != Greater
  {
    if p != [] { PrefixIsSmaller(p[1..], s[1..]); }
  }

  lemma {:induction false} SliceOfPrefix<T>(s: seq<T>, n: nat, k: nat)
    requires n <= k <= |s|
    ensures s[..k][n..] == s[n..][..k - n]
  {
  }

  /** In UTF-8 text these are the ends of whole characters. */
  lemma {:induction false} BoundaryIsWhole(s: seq<nat>, k: nat)
    requires U.Utf8(s) && k <= |s|
    ensures CharBoundary(s, k) <==> U.Utf8(s[..k])
    decreases |s|
  {
    var n := U.FrontChar(s);
    var p := s[..k];
    if k != 0 && s != [] {
      if k < n {
        assert U.Continues(s, k);
        assert U.FrontChar(p) == 0;
      } else {
        assert U.FrontChar(p) == n;
        SliceOfPrefix(s, n, k);
        BoundaryIsWhole(s[n..], k - n);
        if k == n && n < |s| { assert U.FrontChar(s[n..]) > 0; }
      }
    }
  }

  predicate TooLong(v: Value)
  {
    (v.Str? && |v.utf8| > 128) || (v.Bytes? && |v.bytes| > 128)
  }

  /** The longest prefix of at most 128 bytes, of whole characters if it is text. */
  predicate LongestPrefix(p: Value, v: Value)
  {
    if v.Str? then
      && p.Str? && p.utf8 <= v.utf8 && |p.utf8| <= 128 && CharBoundary(v.utf8, |p.utf8|)
      && forall k :: |p.utf8| < k <= 128 && k <= |v.utf8| ==> !CharBoundary(v.utf8, k)
    else v.Bytes? && p.Bytes? && |v.bytes| >= 128 && p.bytes == v.bytes[..128]
  }

  /** `bound_stats`: a long minimum is cut to a prefix, a long maximum dropped; the bounds still
      hold for everything the exact ones held for. */
  method BoundStats(min: Option<Value>, max: Option<Value>, ghost t: Type) returns (lo: Option<Value>, hi: Option<Value>)
    requires (min.Some? ==> HasType(min.value, t)) && (max.Some? ==> HasType(max.value, t))
    ensures lo.Some? <==> min.Some?
    ensures lo.Some? ==> HasType(lo.value, t) && forall a :: HasType(a, t) && AtMost(min.value, a) ==> AtMost(lo.value, a)
    ensures hi == if max.Some? && TooLong(max.value) then None else max
    ensures min.Some? && !TooLong(min.value) ==> lo == min
    ensures min.Some? && TooLong(min.value) ==> LongestPrefix(lo.value, min.value)
    ensures lo.Some? && lo.value.Str? ==> |lo.value.utf8| <= StatsMaxBytes
    ensures hi.Some? && hi.value.Str? ==> |hi.value.utf8| <= StatsMaxBytes
  {
    lo, hi := min, max;
    if max.Some? && ((max.value.Str? && |max.value.utf8| > StatsMaxBytes) || (max.value.Bytes? && |max.value.bytes| > StatsMaxBytes)) {
      hi := None;
    }
    if min.Some? {
      if min.value.Str? && |min.value.utf8| > StatsMaxBytes {
        var cut := TruncateStr(min.value.utf8, StatsMaxBytes);
        lo := Some(Str(cut));
        PrefixIsSmaller(cut, min.value.utf8);
      } else if min.value.Bytes? && |min.value.bytes| > StatsMaxBytes {
        var cut := min.value.bytes[..StatsMaxBytes];
        lo := Some(Bytes(cut));
        PrefixIsSmaller(cut, min.value.bytes);
      }
      CmpFlips(min.value, min.value, t);
      forall a | HasType(a, t) && AtMost(min.value, a) ensures AtMost(lo.value, a) {
        CmpChains(lo.value, min.value, a, t);
      }
    }
  }

  // ── Tombstones and the pruned read ─────────────────────────────────────────

  datatype Predicate = Predicate(c: nat, op: R.CmpOp, v: Value)
  type Tombstone = seq<Predicate>

  /** All predicates of one tombstone are true of the row. */
  predicate Covered(t: Tombstone, row: Row)
  {
    forall i :: 0 <= i < |t| ==> Compare(t[i].op, Cell(row, t[i].c), t[i].v) == Bool(true)
  }

  predicate Deleted(tombstones: seq<Tombstone>, row: Row)
  {
    exists i :: 0 <= i < |tombstones| && Covered(tombstones[i], row)
  }

  function KleeneColumns(a: seq<Value>, b: seq<Value>, decisive: bool): seq<Value>
    requires |a| == |b|
  {
    seq(|a|, i requires 0 <= i < |a| => Kleene(a[i], b[i], decisive))
  }

  function CompareColumn(p: Predicate, rows: seq<Row>): (r: seq<Value>)
    ensures |r| == |rows|
  {
    seq(|rows|, i requires 0 <= i < |rows| => Compare(p.op, Cell(rows[i], p.c), p.v))
  }

  method MatchTombstone(t: Tombstone, rows: seq<Row>) returns (matched: seq<Value>)
    ensures |matched| == |rows|
    ensures forall i :: 0 <= i < |rows| ==> (matched[i] == Bool(true) <==> Covered(t, rows[i]))
  {
    matched := seq(|rows|, _ => Bool(true));
    var k := 0;
    while k < |t|
      invariant 0 <= k <= |t| && |matched| == |rows|
      invariant forall i :: 0 <= i < |rows| ==> (matched[i] == Bool(true) <==> Covered(t[..k], rows[i]))
    {
      var cmp := CompareColumn(t[k], rows);
      MatchedStep(t, k, rows, matched);
      matched := if k == 0 then cmp else KleeneColumns(matched, cmp, false);
      k := k + 1;
    }
    assert t[..k] == t;
  }

  lemma MatchedStep(t: Tombstone, k: nat, rows: seq<Row>, matched: seq<Value>)
    requires k < |t| && |matched| == |rows|
    requires forall i :: 0 <= i < |rows| ==> (matched[i] == Bool(true) <==> Covered(t[..k], rows[i]))
    ensures var cmp := CompareColumn(t[k], rows);
            var next := if k == 0 then cmp else KleeneColumns(matched, cmp, false);
            forall i :: 0 <= i < |rows| ==> (next[i] == Bool(true) <==> Covered(t[..k + 1], rows[i]))
  {
    var cmp := CompareColumn(t[k], rows);
    var next := if k == 0 then cmp else KleeneColumns(matched, cmp, false);
    forall i | 0 <= i < |rows| ensures next[i] == Bool(true) <==> Covered(t[..k + 1], rows[i]) {
      MatchedPush(t, k, rows[i], matched[i], cmp[i], next[i]);
    }
  }

  lemma MatchedPush(t: Tombstone, k: nat, row: Row, matched: Value, cmp: Value, next: Value)
    requires k < |t| && (matched == Bool(true) <==> Covered(t[..k], row)) && cmp == Compare(t[k].op, Cell(row, t[k].c), t[k].v)
    requires next == if k == 0 then cmp else Kleene(matched, cmp, false)
    ensures next == Bool(true) <==> Covered(t[..k + 1], row)
  {
    CoveredPush(t, k, row);
  }

  lemma CoveredPush(t: Tombstone, k: nat, row: Row)
    requires k < |t|
    ensures Covered(t[..k + 1], row) <==> Covered(t[..k], row) && Compare(t[k].op, Cell(row, t[k].c), t[k].v) == Bool(true)
  {
    var a, b := t[..k], t[..k + 1];
    if Covered(b, row) {
      forall i | 0 <= i < |a| ensures Compare(a[i].op, Cell(row, a[i].c), a[i].v) == Bool(true) { assert b[i] == a[i]; }
      assert b[k] == t[k];
    }
  }

  /** `tombstone_keep_mask`: folds the tombstones with Kleene OR of ANDs. A row is dropped
      exactly when every predicate of some tombstone is true of it; NULL drops nothing. */
  method TombstoneKeepMask(tombstones: seq<Tombstone>, rows: seq<Row>) returns (keep: Option<seq<bool>>)
    ensures keep.None? <==> tombstones == []
    ensures keep.Some? ==> |keep.value| == |rows| && forall i :: 0 <= i < |rows| ==> keep.value[i] == !Deleted(tombstones, rows[i])
  {
    if tombstones == [] { return None; }
    var deleted := MatchTombstone(tombstones[0], rows);
    var k := 1;
    while k < |tombstones|
      invariant 1 <= k <= |tombstones| && |deleted| == |rows|
      invariant forall i :: 0 <= i < |rows| ==> (deleted[i] == Bool(true) <==> Deleted(tombstones[..k], rows[i]))
    {
      var matched := MatchTombstone(tombstones[k], rows);
      var next := KleeneColumns(deleted, matched, true);
      forall i | 0 <= i < |rows| ensures next[i] == Bool(true) <==> Deleted(tombstones[..k + 1], rows[i]) {
        DeletedPush(tombstones, k, rows[i]);
      }
      deleted := next;
      k := k + 1;
    }
    assert tombstones[..k] == tombstones;
    keep := Some(seq(|rows|, i requires 0 <= i < |rows| => deleted[i] != Bool(true)));
  }

  lemma DeletedPush(ts: seq<Tombstone>, k: nat, row: Row)
    requires k < |ts|
    ensures Deleted(ts[..k + 1], row) <==> Deleted(ts[..k], row) || Covered(ts[k], row)
  {
    var a, b := ts[..k], ts[..k + 1];
    if Deleted(a, row) {
      var i :| 0 <= i < |a| && Covered(a[i], row);
      assert b[i] == a[i];
    }
    if Covered(ts[k], row) { assert b[k] == ts[k]; }
    if Deleted(b, row) {
      var i :| 0 <= i < |b| && Covered(b[i], row);
      if i < k { assert a[i] == b[i]; }
    }
  }

  function Survivors(tombstones: seq<Tombstone>, rows: seq<Row>): seq<Row>
  {
    if rows == [] then []
    else (if Deleted(tombstones, rows[0]) then [] else [rows[0]]) + Survivors(tombstones, rows[1..])
  }

  function Matching(e: Expr, rows: seq<Row>): seq<Row>
  {
    if rows == [] then [] else (if True(e, rows[0]) then [rows[0]] else []) + Matching(e, rows[1..])
  }

  /** A row group: its rows, its zone map and its index. */
  datatype Group = Group(rows: seq<Row>, stats: Stats, probe: Probe)

  ghost predicate GroupOk(g: Group)
  {
    StatsOk(g.stats, g.rows) && ProbeOk(g.probe, g.rows)
  }

  predicate Pruned(e: Expr, g: Group)
  {
    !MayMatch(e, g.stats) || !IndexMayMatch(e, g.probe)
  }

  lemma {:induction false} SurvivorsWithin(tombstones: seq<Tombstone>, rows: seq<Row>)
    ensures forall row :: row in Survivors(tombstones, rows) ==> row in rows
  {
    if rows != [] { SurvivorsWithin(tombstones, rows[1..]); }
  }

  lemma {:induction false} NothingMatches(e: Expr, rows: seq<Row>)
    requires forall row :: row in rows ==> !True(e, row)
    ensures Matching(e, rows) == []
  {
    if rows != [] { NothingMatches(e, rows[1..]); }
  }

  /** A skipped group contributes no row to the filtered result. */
  lemma PrunedIsEmpty(e: Expr, g: Group, tombstones: seq<Tombstone>)
    requires GroupOk(g) && Pruned(e, g)
    ensures Matching(e, Survivors(tombstones, g.rows)) == []
  {
    SurvivorsWithin(tombstones, g.rows);
    forall row | row in g.rows ensures !True(e, row) {
      if True(e, row) {
        MayMatchSound(e, g.stats, g.rows, row);
        IndexMayMatchSound(e, g.probe, g.rows, row);
      }
    }
    NothingMatches(e, Survivors(tombstones, g.rows));
  }

  /** Every surviving row of every group. */
  function FullScan(groups: seq<Group>, tombstones: seq<Tombstone>): seq<Row>
  {
    if groups == [] then []
    else FullScan(groups[..|groups| - 1], tombstones) + Survivors(tombstones, groups[|groups| - 1].rows)
  }

  lemma {:induction false} MatchingAppend(e: Expr, a: seq<Row>, b: seq<Row>)
    ensures Matching(e, a + b) == Matching(e, a) + Matching(e, b)
  {
    if a == [] {
      assert a + b == b;
    } else {
      var first := if True(e, a[0]) then [a[0]] else [];
      assert (a + b)[0] == a[0] && (a + b)[1..] == a[1..] + b;
      MatchingAppend(e, a[1..], b);
      Assoc(first, Matching(e, a[1..]), Matching(e, b));
    }
  }

  /** One more group, read or skipped, keeps the filtered rows those of the full scan. */
  lemma GroupStep(e: Expr, g: Group, tombstones: seq<Tombstone>, done: seq<Row>, out: seq<Row>)
    requires GroupOk(g) && Matching(e, out) == Matching(e, done)
    ensures var live := Survivors(tombstones, g.rows);
            Matching(e, if Pruned(e, g) then out else out + live) == Matching(e, done + live)
  {
    var live := Survivors(tombstones, g.rows);
    MatchingAppend(e, done, live);
    MatchingAppend(e, out, live);
    if Pruned(e, g) { PrunedIsEmpty(e, g, tombstones); }
  }

  /** What the filter above the scan sees of the first `total` groups is what it should. */
  ghost predicate ScannedSoFar(groups: seq<Group>, pred: Option<Expr>, tombstones: seq<Tombstone>, total: nat, out: seq<Row>)
  {
    && total <= |groups|
    && var done := FullScan(groups[..total], tombstones);
       if pred.None? then out == done else Matching(pred.value, out) == Matching(pred.value, done)
  }

  lemma ScannedStep(groups: seq<Group>, pred: Option<Expr>, tombstones: seq<Tombstone>, total: nat, out: seq<Row>)
    requires ScannedSoFar(groups, pred, tombstones, total, out) && total < |groups| && GroupOk(groups[total])
    ensures var g := groups[total];
            ScannedSoFar(groups, pred, tombstones, total + 1,
                         if pred.Some? && Pruned(pred.value, g) then out else out + Survivors(tombstones, g.rows))
  {
    assert groups[..total + 1][..total] == groups[..total];
    if pred.Some? { GroupStep(pred.value, groups[total], tombstones, FullScan(groups[..total], tombstones), out); }
  }

  /** `read_segment`: skips a group when its zone map or its index refutes the predicate. The
      filter that runs above the scan sees exactly the rows it would have kept anyway. */
  method ReadSegment(groups: seq<Group>, pred: Option<Expr>, tombstones: seq<Tombstone>)
    returns (out: seq<Row>, total: nat, pruned: nat)
    requires forall k :: 0 <= k < |groups| ==> GroupOk(groups[k])
    ensures pred.None? ==> out == FullScan(groups, tombstones) && pruned == 0
    ensures pred.Some? ==> Matching(pred.value, out) == Matching(pred.value, FullScan(groups, tombstones))
    ensures total == |groups| && pruned <= total
  {
    out, total, pruned := [], 0, 0;
    while total < |groups|
      invariant pruned <= total <= |groups| && (pred.None? ==> pruned == 0)
      invariant ScannedSoFar(groups, pred, tombstones, total, out)
    {
      var g := groups[total];
      ScannedStep(groups, pred, tombstones, total, out);
      if pred.Some? && Pruned(pred.value, g) {
        pruned := pruned + 1;
      } else {
        out := out + Survivors(tombstones, g.rows);
      }
      total := total + 1;
    }
    assert groups[..total] == groups;
  }
}
