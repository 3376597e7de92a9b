/** The planner's passes in their order (src/sql/planner.rs): fold constants, prune, push down,
    merge filters, lower. */
module Planner {
  import opened Relational
  import opened Folding
  import opened Pushdown
  import opened Narrow
  import opened Lowering

  /** The logical passes after folding. */
  function Reshape(p: Plan): Plan
    requires Wf(p)
  {
    MergeFilters(PushDown(PruneScans(p, UsedNames(p))))
  }

  function Rewrite(w: World, typed: BExpr -> bool, p: Plan): Plan
    requires Wf(p)
  {
    FoldingPreservesMeaning(w, typed, p);
    Reshape(FoldTree(w, typed, p))
  }

  /** The properties of a plan that no pass changes. */
  ghost predicate SameShape(w: World, p: Plan, q: Plan)
  {
    && PlainAggregates(q) == PlainAggregates(p)
    && OrderFree(w, q) == OrderFree(w, p)
    && AllInner(q) == AllInner(p)
  }

  lemma {:induction false} PruneShape(w: World, p: Plan, used: set<string>)
    requires Wf(p)
    ensures SameShape(w, p, PruneScans(p, used))
    decreases p
  {
    match p {
      case Scan(_, _) =>
      case Values(_, _) =>
      case Filter(input, _) => PruneShape(w, input, used);
      case Project(input, _, _) => PruneShape(w, input, used);
      case Aggregate(input, _, _, _) => PruneShape(w, input, used);
      case Join(left, right, _, _, _) =>
        PruneShape(w, left, used);
        PruneShape(w, right, used);
      case Sort(input, _) => PruneShape(w, input, used);
      case Limit(input, _, _) => PruneShape(w, input, used);
      case UnionAll(branches, _) =>
        forall i | 0 <= i < |branches| ensures SameShape(w, branches[i], PruneScans(branches[i], used)) {
          PruneShape(w, branches[i], used);
        }
        BranchShapes(w, p, PruneScans(p, used));
    }
  }

  lemma BranchShapes(w: World, p: Plan, q: Plan)
    requires p.UnionAll? && q.UnionAll? && |p.branches| == |q.branches|
    requires forall i :: 0 <= i < |p.branches| ==> SameShape(w, p.branches[i], q.branches[i])
    ensures SameShape(w, p, q)
  {
    assert forall i :: 0 <= i < |p.branches| ==> PlainAggregates(p.branches[i]) == PlainAggregates(q.branches[i]);
    assert forall i :: 0 <= i < |p.branches| ==> OrderFree(w, p.branches[i]) == OrderFree(w, q.branches[i]);
    assert forall i :: 0 <= i < |p.branches| ==> AllInner(p.branches[i]) == AllInner(q.branches[i]);
  }

  lemma FilterShape(w: World, p: Plan, c: BExpr)
    ensures SameShape(w, p, Filter(p, c))
  {
  }

  lemma JoinShape(w: World, p: Plan, q: Plan)
    requires p.Join? && q.Join? && p.kind == q.kind && SameShape(w, p.left, q.left) && SameShape(w, p.right, q.right)
    ensures SameShape(w, p, q)
  {
  }

  lemma {:induction false} PushIntoShape(w: World, p: Plan, c: BExpr)
    ensures SameShape(w, p, PushInto(p, c))
    decreases p
  {
    match p {
      case Join(left, right, kind, on, fs) =>
        PushIntoShape(w, left, c);
        PushIntoShape(w, right, c);
        JoinShape(w, p, Join(left, PushInto(right, c), kind, on, fs));
        JoinShape(w, p, Join(PushInto(left, c), right, kind, on, fs));
        FilterShape(w, p, c);
      case Filter(input, pred) =>
        PushIntoShape(w, input, c);
        FilterShape(w, input, pred);
        FilterShape(w, PushInto(input, c), pred);
      case _ => FilterShape(w, p, c);
    }
  }

  lemma {:induction false} PushEachShape(w: World, p: Plan, cs: seq<BExpr>)
    ensures SameShape(w, p, PushEach(p, cs))
    decreases |cs|
  {
    if cs != [] {
      PushIntoShape(w, p, cs[0]);
      PushEachShape(w, PushInto(p, cs[0]), cs[1..]);
    }
  }

  lemma {:induction false} PushDownShape(w: World, p: Plan)
    ensures SameShape(w, p, PushDown(p))
    decreases p
  {
    match p {
      case Scan(_, _) =>
      case Values(_, _) =>
      case Filter(input, pred) =>
        PushDownShape(w, input);
        PushEachShape(w, PushDown(input), Conjuncts(pred));
      case Project(input, _, _) => PushDownShape(w, input);
      case Aggregate(input, _, _, _) => PushDownShape(w, input);
      case Join(left, right, _, _, _) =>
        PushDownShape(w, left);
        PushDownShape(w, right);
      case Sort(input, _) => PushDownShape(w, input);
      case Limit(input, _, _) => PushDownShape(w, input);
      case UnionAll(branches, _) =>
        forall i | 0 <= i < |branches| ensures SameShape(w, branches[i], PushDown(branches[i])) {
          PushDownShape(w, branches[i]);
        }
        BranchShapes(w, p, PushDown(p));
    }
  }

  lemma {:induction false} MergeShape(w: World, p: Plan)
    ensures SameShape(w, p, MergeFilters(p))
    decreases Size(p)
  {
    match p {
      case Scan(_, _) =>
      case Values(_, _) =>
      case Filter(input, pred) =>
        MergeShape(w, input);
        var merged := MergeFilters(input);
        if merged.Filter? { MergeShape(w, Filter(merged.input, AndOf([pred, merged.pred]))); }
      case Project(input, _, _) => MergeShape(w, input);
      case Aggregate(input, _, _, _) => MergeShape(w, input);
      case Join(left, right, _, _, _) =>
        MergeShape(w, left);
        MergeShape(w, right);
      case Sort(input, _) => MergeShape(w, input);
      case Limit(input, _, _) => MergeShape(w, input);
      case UnionAll(branches, _) =>
        forall i | 0 <= i < |branches| ensures SameShape(w, branches[i], MergeFilters(branches[i])) {
          BranchSmaller(p, i);
          MergeShape(w, branches[i]);
        }
        BranchShapes(w, p, MergeFilters(p));
    }
  }

  lemma FoldsToColumn(w: World, typed: BExpr -> bool, e: BExpr)
    ensures FoldExpr(w, typed, e).Column? <==> e.Column?
  {
  }

  ghost predicate SameOwners(w: World, p: Plan, q: Plan)
  {
    SameShape(w, p, q) && OwnColumns(q) == OwnColumns(p) && UnionsOwn(q) == UnionsOwn(p)
  }

  lemma {:induction false} FoldShape(w: World, typed: BExpr -> bool, p: Plan)
    ensures SameOwners(w, p, FoldTree(w, typed, p))
    decreases p
  {
    match p {
      case Scan(_, _) =>
      case Values(_, _) =>
      case Filter(input, _) => FoldShape(w, typed, input);
      case Project(input, _, _) => FoldShape(w, typed, input);
      case Aggregate(input, exprs, spec, fs) =>
        FoldShape(w, typed, input);
        AggregateShape(w, typed, exprs);
      case Join(left, right, _, _, _) =>
        FoldShape(w, typed, left);
        FoldShape(w, typed, right);
      case Sort(input, _) => FoldShape(w, typed, input);
      case Limit(input, _, _) => FoldShape(w, typed, input);
      case UnionAll(branches, _) => UnionShape(w, typed, p);
    }
  }

  lemma AggregateShape(w: World, typed: BExpr -> bool, exprs: seq<BExpr>)
    ensures (forall i :: 0 <= i < |exprs| ==> FoldEach(w, typed, exprs)[i].Column?) <==> (forall i :: 0 <= i < |exprs| ==> exprs[i].Column?)
  {
    forall i | 0 <= i < |exprs| ensures FoldEach(w, typed, exprs)[i].Column? <==> exprs[i].Column? {
      FoldsToColumn(w, typed, exprs[i]);
    }
  }

  lemma {:induction false} UnionShape(w: World, typed: BExpr -> bool, p: Plan)
    requires p.UnionAll?
    ensures SameOwners(w, p, FoldTree(w, typed, p))
    decreases p, 0
  {
    var bs, q := p.branches, FoldTree(w, typed, p);
    forall i | 0 <= i < |bs| ensures SameOwners(w, bs[i], q.branches[i]) { FoldShape(w, typed, bs[i]); }
    BranchShapes(w, p, q);
    assert forall i :: 0 <= i < |bs| ==> OwnColumns(bs[i]) == OwnColumns(q.branches[i]);
    assert forall i :: 0 <= i < |bs| ==> UnionsOwn(bs[i]) == UnionsOwn(q.branches[i]);
  }

  lemma RewriteShape(w: World, typed: BExpr -> bool, p: Plan)
    requires Wf(p)
    ensures SameShape(w, p, Rewrite(w, typed, p))
  {
    FoldingPreservesMeaning(w, typed, p);
    FoldShape(w, typed, p);
    ReshapeShape(w, FoldTree(w, typed, p));
  }

  lemma ReshapeShape(w: World, p: Plan)
    requires Wf(p)
    ensures SameShape(w, p, Reshape(p))
  {
    var pruned := PruneScans(p, UsedNames(p));
    PruneShape(w, p, UsedNames(p));
    PushDownShape(w, pruned);
    MergeShape(w, PushDown(pruned));
  }

  /** What the binder hands over: a well-formed query that projects or aggregates. */
  ghost predicate Query(p: Plan)
  {
    Wf(p) && UnionsOwn(p) && OwnColumns(p) && PlainAggregates(p)
  }

  /** The plan pushdown starts from. */
  function Pruned(w: World, typed: BExpr -> bool, p: Plan): Plan
    requires Wf(p)
  {
    FoldingPreservesMeaning(w, typed, p);
    var folded := FoldTree(w, typed, p);
    PruneScans(folded, UsedNames(folded))
  }

  /** No conjunct goes to the right below a LEFT join. */
  ghost predicate KeepsLeftJoins(w: World, typed: BExpr -> bool, p: Plan)
    requires Wf(p)
  {
    SafeDown(Pruned(w, typed, p))
  }

  /** Without LEFT joins none can. */
  lemma InnerKeeps(w: World, typed: BExpr -> bool, p: Plan)
    requires Wf(p) && AllInner(p)
    ensures KeepsLeftJoins(w, typed, p)
  {
    FoldingPreservesMeaning(w, typed, p);
    FoldShape(w, typed, p);
    var folded := FoldTree(w, typed, p);
    PruneShape(w, folded, UsedNames(folded));
    InnerIsSafe(Pruned(w, typed, p));
  }

  /** The logical passes together keep every row, in order, LEFT joins included. */
  lemma RewritePreservesMeaning(w: World, typed: BExpr -> bool, p: Plan)
    requires Query(p) && KeepsLeftJoins(w, typed, p)
    ensures var q := Rewrite(w, typed, p); Wf(q) && Fields(q) == Fields(p) && Denote(w, q) == Denote(w, p)
  {
    FoldingPreservesMeaning(w, typed, p);
    FoldShape(w, typed, p);
    ReshapePreservesMeaning(w, FoldTree(w, typed, p));
  }

  lemma ReshapePreservesMeaning(w: World, p: Plan)
    requires Query(p) && SafeDown(PruneScans(p, UsedNames(p)))
    ensures Wf(Reshape(p)) && Fields(Reshape(p)) == Fields(p) && Denote(w, Reshape(p)) == Denote(w, p)
  {
    PruningPreservesMeaning(w, p);
    PushdownPreservesMeaning(w, PruneScans(p, UsedNames(p)));
  }

  /** End to end: planning succeeds, and executing the physical plan yields exactly the bag of rows
      the query denotes — whatever the row estimates, if no LIMIT and no aggregate of the query
      depends on row order; else if none of those is above a swapped join. */
  lemma PlanningPreservesRows(w: World, typed: BExpr -> bool, p: Plan, est: Plan -> nat)
    requires Query(p) && KeepsLeftJoins(w, typed, p) && EqIsSymmetric(w)
    requires OrderFree(w, p) || OrderSafe(w, Rewrite(w, typed, p), est)
    ensures var e := Lower(Rewrite(w, typed, p), est); e.Some? && multiset(Execute(w, e.value)) == multiset(Denote(w, p))
  {
    RewritePreservesMeaning(w, typed, p);
    RewriteShape(w, typed, p);
    if OrderFree(w, p) { FreeIsSafe(w, Rewrite(w, typed, p), est); }
    LowerBag(w, Rewrite(w, typed, p), est);
  }

  /** With no side swapped, the rows also come in the denoted order, LIMIT included. */
  lemma PlanningPreservesOrder(w: World, typed: BExpr -> bool, p: Plan, est: Plan -> nat)
    requires Query(p) && KeepsLeftJoins(w, typed, p)
    requires Unswapped(Rewrite(w, typed, p), est) && BoundsHold(w, Rewrite(w, typed, p))
    ensures var e := Lower(Rewrite(w, typed, p), est); e.Some? && Execute(w, e.value) == Denote(w, p)
  {
    RewritePreservesMeaning(w, typed, p);
    RewriteShape(w, typed, p);
    LowerExact(w, Rewrite(w, typed, p), est);
  }
}
