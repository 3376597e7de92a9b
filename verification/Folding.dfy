/** Constant folding (`fold_tree`, `fold_expr` in src/sql/planner.rs; `fold_constant` in
    src/sql/binder.rs): the planner's first pass. */
module Folding {
  import opened Relational

  /** `contains_column`. */
  predicate ContainsColumn(e: BExpr)
  {
    match e
    case Column(_) => true
    case Literal(_) => false
    case Cmp(_, l, r) => ContainsColumn(l) || ContainsColumn(r)
    case And(parts) => exists i :: 0 <= i < |parts| && ContainsColumn(parts[i])
    case Or(parts) => exists i :: 0 <= i < |parts| && ContainsColumn(parts[i])
    case Not(x) => ContainsColumn(x)
    case IsNull(x) => ContainsColumn(x)
    case Apply(_, args) => exists i :: 0 <= i < |args| && ContainsColumn(args[i])
  }

  /** The one-row batch constants are evaluated over. */
  const DummyFields: seq<Field> := [Field("_dummy", Fixed(1))]
  const DummyRow: Row := [Bool(true)]

  /** `fold_constant`; `typed` says whether lowering, typing and evaluation succeed. */
  function FoldConstant(w: World, typed: BExpr -> bool, e: BExpr): BExpr
  {
    if !ContainsColumn(e) && typed(e) then Literal(Eval(w, e, DummyFields, DummyRow)) else e
  }

  function FoldExpr(w: World, typed: BExpr -> bool, e: BExpr): BExpr
    decreases e
  {
    match e
    case Column(_) => e
    case Literal(_) => e
    case Cmp(op, l, r) => FoldConstant(w, typed, Cmp(op, FoldExpr(w, typed, l), FoldExpr(w, typed, r)))
    case And(parts) => FoldConstant(w, typed, And(seq(|parts|, i requires 0 <= i < |parts| => FoldExpr(w, typed, parts[i]))))
    case Or(parts) => FoldConstant(w, typed, Or(seq(|parts|, i requires 0 <= i < |parts| => FoldExpr(w, typed, parts[i]))))
    case Not(x) => FoldConstant(w, typed, Not(FoldExpr(w, typed, x)))
    case IsNull(x) => FoldConstant(w, typed, IsNull(FoldExpr(w, typed, x)))
    case Apply(f, args) => FoldConstant(w, typed, Apply(f, seq(|args|, i requires 0 <= i < |args| => FoldExpr(w, typed, args[i]))))
  }

  function FoldEach(w: World, typed: BExpr -> bool, exprs: seq<BExpr>): seq<BExpr>
  {
    seq(|exprs|, i requires 0 <= i < |exprs| => FoldExpr(w, typed, exprs[i]))
  }

  function FoldTree(w: World, typed: BExpr -> bool, p: Plan): Plan
    decreases p
  {
    match p
    case Scan(_, _) => p
    case Values(_, _) => p
    case Filter(input, pred) => Filter(FoldTree(w, typed, input), FoldExpr(w, typed, pred))
    case Project(input, exprs, fs) => Project(FoldTree(w, typed, input), FoldEach(w, typed, exprs), fs)
    case Aggregate(input, exprs, spec, fs) => Aggregate(FoldTree(w, typed, input), FoldEach(w, typed, exprs), spec, fs)
    case Join(left, right, kind, on, fs) => Join(FoldTree(w, typed, left), FoldTree(w, typed, right), kind, on, fs)
    case Sort(input, keys) => Sort(FoldTree(w, typed, input), keys)
    case Limit(input, limit, offset) => Limit(FoldTree(w, typed, input), limit, offset)
    case UnionAll(branches, fs) =>
      UnionAll(seq(|branches|, i requires 0 <= i < |branches| => FoldTree(w, typed, branches[i])), fs)
  }

  // ── Expressions ────────────────────────────────────────────────────────────

  lemma {:induction false} NoColumns(e: BExpr)
    requires !ContainsColumn(e)
    ensures Cols(e) == {}
    decreases e
  {
    match e {
      case Column(_) =>
      case Literal(_) =>
      case Cmp(_, l, r) => NoColumns(l); NoColumns(r);
      case And(parts) => forall i | 0 <= i < |parts| ensures Cols(parts[i]) == {} { NoColumns(parts[i]); }
      case Or(parts) => forall i | 0 <= i < |parts| ensures Cols(parts[i]) == {} { NoColumns(parts[i]); }
      case Not(x) => NoColumns(x);
      case IsNull(x) => NoColumns(x);
      case Apply(_, args) => forall i | 0 <= i < |args| ensures Cols(args[i]) == {} { NoColumns(args[i]); }
    }
  }

  /** What folding may do to an expression: same value everywhere, no new column. */
  ghost predicate Folded(w: World, e: BExpr, f: BExpr)
  {
    Cols(f) <= Cols(e) && forall fs, row :: Eval(w, f, fs, row) == Eval(w, e, fs, row)
  }

  lemma ConstantFolds(w: World, typed: BExpr -> bool, e: BExpr, inner: BExpr)
    requires Folded(w, e, inner)
    ensures Folded(w, e, FoldConstant(w, typed, inner))
  {
    if !ContainsColumn(inner) && typed(inner) {
      NoColumns(inner);
      forall fs, row ensures Eval(w, inner, DummyFields, DummyRow) == Eval(w, e, fs, row) {
        EvalDepends(w, inner, DummyFields, DummyRow, fs, row);
      }
    }
  }

  lemma EachFolds(w: World, parts: seq<BExpr>, folded: seq<BExpr>, fs: seq<Field>, row: Row)
    requires |folded| == |parts| && forall i :: 0 <= i < |parts| ==> Folded(w, parts[i], folded[i])
    ensures seq(|parts|, i requires 0 <= i < |parts| => Eval(w, folded[i], fs, row))
         == seq(|parts|, i requires 0 <= i < |parts| => Eval(w, parts[i], fs, row))
  {
  }

  /** Rebuilding a node over folded arguments. */
  lemma ListFolds(w: World, e: BExpr, f: BExpr, parts: seq<BExpr>, folded: seq<BExpr>)
    requires |folded| == |parts| && forall i :: 0 <= i < |parts| ==> Folded(w, parts[i], folded[i])
    requires (e.And? && f.And? && e.parts == parts && f.parts == folded)
          || (e.Or? && f.Or? && e.parts == parts && f.parts == folded)
          || (e.Apply? && f.Apply? && e.f == f.f && e.args == parts && f.args == folded)
    ensures Folded(w, e, f)
  {
    forall fs, row ensures Eval(w, f, fs, row) == Eval(w, e, fs, row) { EachFolds(w, parts, folded, fs, row); }
    forall n | n in Cols(f) ensures n in Cols(e) {
      var i :| 0 <= i < |folded| && n in Cols(folded[i]);
      assert n in Cols(parts[i]);
    }
  }

  /** Folding an expression changes its value on no row, whichever of its constants fold. */
  lemma {:induction false} FoldExprMeaning(w: World, typed: BExpr -> bool, e: BExpr)
    ensures Folded(w, e, FoldExpr(w, typed, e))
    decreases e
  {
    match e {
      case Column(_) =>
      case Literal(_) =>
      case Cmp(op, l, r) =>
        FoldExprMeaning(w, typed, l);
        FoldExprMeaning(w, typed, r);
        ConstantFolds(w, typed, e, Cmp(op, FoldExpr(w, typed, l), FoldExpr(w, typed, r)));
      case Not(x) =>
        FoldExprMeaning(w, typed, x);
        ConstantFolds(w, typed, e, Not(FoldExpr(w, typed, x)));
      case IsNull(x) =>
        FoldExprMeaning(w, typed, x);
        ConstantFolds(w, typed, e, IsNull(FoldExpr(w, typed, x)));
      case And(parts) => FoldListMeaning(w, typed, e, parts);
      case Or(parts) => FoldListMeaning(w, typed, e, parts);
      case Apply(_, args) => FoldListMeaning(w, typed, e, args);
    }
  }

  lemma {:induction false} FoldListMeaning(w: World, typed: BExpr -> bool, e: BExpr, parts: seq<BExpr>)
    requires (e.And? && e.parts == parts) || (e.Or? && e.parts == parts) || (e.Apply? && e.args == parts)
    ensures Folded(w, e, FoldExpr(w, typed, e))
    decreases e, 0
  {
    forall i | 0 <= i < |parts| ensures Folded(w, parts[i], FoldExpr(w, typed, parts[i])) {
      FoldExprMeaning(w, typed, parts[i]);
    }
    var folded := seq(|parts|, i requires 0 <= i < |parts| => FoldExpr(w, typed, parts[i]));
    var inner := if e.And? then And(folded) else if e.Or? then Or(folded) else Apply(e.f, folded);
    ListFolds(w, e, inner, parts, folded);
    ConstantFolds(w, typed, e, inner);
  }

  // ── Plans ──────────────────────────────────────────────────────────────────

  lemma {:induction false} SelectFolds(w: World, e: BExpr, f: BExpr, fs: seq<Field>, rows: seq<Row>)
    requires Folded(w, e, f)
    ensures Select(w, f, fs, rows) == Select(w, e, fs, rows)
  {
    if rows != [] { SelectFolds(w, e, f, fs, rows[1..]); }
  }

  lemma EvalRowsFold(w: World, typed: BExpr -> bool, exprs: seq<BExpr>, fs: seq<Field>, rows: seq<Row>)
    ensures EvalRows(w, FoldEach(w, typed, exprs), fs, rows) == EvalRows(w, exprs, fs, rows)
  {
    var folded := FoldEach(w, typed, exprs);
    forall k | 0 <= k < |rows| ensures EvalEach(w, folded, fs, rows[k]) == EvalEach(w, exprs, fs, rows[k]) {
      forall i | 0 <= i < |exprs| ensures Eval(w, folded[i], fs, rows[k]) == Eval(w, exprs[i], fs, rows[k]) {
        FoldExprMeaning(w, typed, exprs[i]);
      }
    }
  }

  lemma FoldedReads(w: World, typed: BExpr -> bool, exprs: seq<BExpr>, fs: seq<Field>)
    requires forall i :: 0 <= i < |exprs| ==> Reads(exprs[i], fs)
    ensures forall i :: 0 <= i < |exprs| ==> Reads(FoldEach(w, typed, exprs)[i], fs)
  {
    forall i | 0 <= i < |exprs| ensures Reads(FoldExpr(w, typed, exprs[i]), fs) { FoldExprMeaning(w, typed, exprs[i]); }
  }

  ghost predicate SameTable(w: World, p: Plan, q: Plan)
  {
    Fields(q) == Fields(p) && Denote(w, q) == Denote(w, p) && (Wf(p) ==> Wf(q))
  }

  /** The planner's rule 5: every plan, whatever its joins, keeps its fields, its rows and their
      order, and stays well formed. */
  lemma {:induction false} FoldingPreservesMeaning(w: World, typed: BExpr -> bool, p: Plan)
    ensures SameTable(w, p, FoldTree(w, typed, p))
    decreases p
  {
    match p {
      case Scan(_, _) =>
      case Values(_, _) =>
      case Filter(input, pred) =>
        FoldingPreservesMeaning(w, typed, input);
        FoldExprMeaning(w, typed, pred);
        SelectFolds(w, pred, FoldExpr(w, typed, pred), Fields(input), Denote(w, input));
      case Project(input, exprs, _) =>
        FoldingPreservesMeaning(w, typed, input);
        EvalRowsFold(w, typed, exprs, Fields(input), Denote(w, input));
        if Wf(p) { FoldedReads(w, typed, exprs, Fields(input)); }
      case Aggregate(input, exprs, _, _) =>
        FoldingPreservesMeaning(w, typed, input);
        EvalRowsFold(w, typed, exprs, Fields(input), Denote(w, input));
        if Wf(p) { FoldedReads(w, typed, exprs, Fields(input)); }
      case Join(left, right, _, _, _) =>
        FoldingPreservesMeaning(w, typed, left);
        FoldingPreservesMeaning(w, typed, right);
      case Sort(input, _) => FoldingPreservesMeaning(w, typed, input);
      case Limit(input, _, _) => FoldingPreservesMeaning(w, typed, input);
      case UnionAll(branches, _) => FoldUnion(w, typed, p);
    }
  }

  lemma {:induction false} FoldUnion(w: World, typed: BExpr -> bool, p: Plan)
    requires p.UnionAll?
    ensures SameTable(w, p, FoldTree(w, typed, p))
    decreases p, 0
  {
    var bs := p.branches;
    forall i | 0 <= i < |bs| ensures SameTable(w, bs[i], FoldTree(w, typed, bs[i])) {
      FoldingPreservesMeaning(w, typed, bs[i]);
    }
    var q := FoldTree(w, typed, p);
    assert seq(|bs|, i requires 0 <= i < |bs| => Denote(w, q.branches[i])) == seq(|bs|, i requires 0 <= i < |bs| => Denote(w, bs[i]));
  }

  // ── Everything that folds is folded ────────────────────────────────────────

  /** No constant inside that would still fold. */
  predicate Settled(typed: BExpr -> bool, e: BExpr)
    decreases e
  {
    match e
    case Column(_) => true
    case Literal(_) => true
    case Cmp(_, l, r) => Settled(typed, l) && Settled(typed, r) && Needed(typed, e)
    case And(parts) => (forall i :: 0 <= i < |parts| ==> Settled(typed, parts[i])) && Needed(typed, e)
    case Or(parts) => (forall i :: 0 <= i < |parts| ==> Settled(typed, parts[i])) && Needed(typed, e)
    case Not(x) => Settled(typed, x) && Needed(typed, e)
    case IsNull(x) => Settled(typed, x) && Needed(typed, e)
    case Apply(_, args) => (forall i :: 0 <= i < |args| ==> Settled(typed, args[i])) && Needed(typed, e)
  }

  predicate Needed(typed: BExpr -> bool, e: BExpr)
  {
    ContainsColumn(e) || !typed(e)
  }

  lemma {:induction false} FoldSettles(w: World, typed: BExpr -> bool, e: BExpr)
    ensures Settled(typed, FoldExpr(w, typed, e))
    decreases e
  {
    match e {
      case Column(_) =>
      case Literal(_) =>
      case Cmp(_, l, r) => FoldSettles(w, typed, l); FoldSettles(w, typed, r);
      case And(parts) => FoldEachSettles(w, typed, e, parts);
      case Or(parts) => FoldEachSettles(w, typed, e, parts);
      case Not(x) => FoldSettles(w, typed, x);
      case IsNull(x) => FoldSettles(w, typed, x);
      case Apply(_, args) => FoldEachSettles(w, typed, e, args);
    }
  }

  lemma {:induction false} FoldEachSettles(w: World, typed: BExpr -> bool, e: BExpr, parts: seq<BExpr>)
    requires (e.And? && e.parts == parts) || (e.Or? && e.parts == parts) || (e.Apply? && e.args == parts)
    ensures Settled(typed, FoldExpr(w, typed, e))
    decreases e, 0
  {
    forall i | 0 <= i < |parts| ensures Settled(typed, FoldExpr(w, typed, parts[i])) { FoldSettles(w, typed, parts[i]); }
    var folded := seq(|parts|, i requires 0 <= i < |parts| => FoldExpr(w, typed, parts[i]));
    var inner := if e.And? then And(folded) else if e.Or? then Or(folded) else Apply(e.f, folded);
    assert FoldExpr(w, typed, e) == FoldConstant(w, typed, inner);
  }

  /** Folding leaves nothing to fold: a second pass changes nothing. */
  lemma {:induction false} SettledStays(w: World, typed: BExpr -> bool, e: BExpr)
    requires Settled(typed, e)
    ensures FoldExpr(w, typed, e) == e
    decreases e
  {
    match e {
      case Column(_) =>
      case Literal(_) =>
      case Cmp(_, l, r) => SettledStays(w, typed, l); SettledStays(w, typed, r);
      case And(parts) => PartsStay(w, typed, parts, e);
      case Or(parts) => PartsStay(w, typed, parts, e);
      case Not(x) => SettledStays(w, typed, x);
      case IsNull(x) => SettledStays(w, typed, x);
      case Apply(_, args) => PartsStay(w, typed, args, e);
    }
  }

  lemma {:induction false} PartsStay(w: World, typed: BExpr -> bool, parts: seq<BExpr>, e: BExpr)
    requires (e.And? && e.parts == parts) || (e.Or? && e.parts == parts) || (e.Apply? && e.args == parts)
    requires Settled(typed, e)
    ensures FoldExpr(w, typed, e) == e
    decreases e, 0
  {
    forall i | 0 <= i < |parts| ensures FoldExpr(w, typed, parts[i]) == parts[i] { SettledStays(w, typed, parts[i]); }
    assert seq(|parts|, i requires 0 <= i < |parts| => FoldExpr(w, typed, parts[i])) == parts;
  }

  lemma FoldingIsIdempotent(w: World, typed: BExpr -> bool, e: BExpr)
    ensures FoldExpr(w, typed, FoldExpr(w, typed, e)) == FoldExpr(w, typed, e)
  {
    FoldSettles(w, typed, e);
    SettledStays(w, typed, FoldExpr(w, typed, e));
  }

  /** Every expression of the plan. */
  predicate PlanSettled(typed: BExpr -> bool, p: Plan)
    decreases p
  {
    match p
    case Scan(_, _) => true
    case Values(_, _) => true
    case Filter(input, pred) => Settled(typed, pred) && PlanSettled(typed, input)
    case Project(input, exprs, _) => AllSettled(typed, exprs) && PlanSettled(typed, input)
    case Aggregate(input, exprs, _, _) => AllSettled(typed, exprs) && PlanSettled(typed, input)
    case Join(left, right, _, _, _) => PlanSettled(typed, left) && PlanSettled(typed, right)
    case Sort(input, _) => PlanSettled(typed, input)
    case Limit(input, _, _) => PlanSettled(typed, input)
    case UnionAll(branches, _) => forall i :: 0 <= i < |branches| ==> PlanSettled(typed, branches[i])
  }

  predicate AllSettled(typed: BExpr -> bool, exprs: seq<BExpr>)
  {
    forall i :: 0 <= i < |exprs| ==> Settled(typed, exprs[i])
  }

  lemma EachSettles(w: World, typed: BExpr -> bool, exprs: seq<BExpr>)
    ensures AllSettled(typed, FoldEach(w, typed, exprs))
  {
    forall i | 0 <= i < |exprs| ensures Settled(typed, FoldEach(w, typed, exprs)[i]) { FoldSettles(w, typed, exprs[i]); }
  }

  /** After the pass no node of the plan holds a constant that would still fold. */
  lemma {:induction false} FoldTreeSettles(w: World, typed: BExpr -> bool, p: Plan)
    ensures PlanSettled(typed, FoldTree(w, typed, p))
    decreases p
  {
    match p {
      case Scan(_, _) =>
      case Values(_, _) =>
      case Filter(input, pred) => FoldTreeSettles(w, typed, input); FoldSettles(w, typed, pred);
      case Project(input, exprs, _) => FoldTreeSettles(w, typed, input); EachSettles(w, typed, exprs);
      case Aggregate(input, exprs, _, _) => FoldTreeSettles(w, typed, input); EachSettles(w, typed, exprs);
      case Join(left, right, _, _, _) => FoldTreeSettles(w, typed, left); FoldTreeSettles(w, typed, right);
      case Sort(input, _) => FoldTreeSettles(w, typed, input);
      case Limit(input, _, _) => FoldTreeSettles(w, typed, input);
      case UnionAll(branches, _) =>
        forall i | 0 <= i < |branches| ensures PlanSettled(typed, FoldTree(w, typed, branches[i])) {
          FoldTreeSettles(w, typed, branches[i]);
        }
    }
  }
}
