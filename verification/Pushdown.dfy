/** Predicate pushdown and filter merging (src/sql/planner.rs): the rewritten plan denotes the same
    rows, in the same order, unless a conjunct is pushed to the right of a LEFT join. */
module Pushdown {
  import opened Seqs
  import opened Relational

  // ── The rewrites ───────────────────────────────────────────────────────────

  function Conjuncts(e: BExpr): seq<BExpr>
  {
    match e
    case And(parts) => Concat(seq(|parts|, i requires 0 <= i < |parts| => Conjuncts(parts[i])))
    case _ => [e]
  }

  function AndOf(exprs: seq<BExpr>): BExpr
  {
    if |exprs| == 1 then exprs[0] else And(exprs)
  }

  function SubtreePrefixes(p: Plan): set<string>
  {
    PrefixesOf(Names(Fields(p)))
  }

  function PushInto(p: Plan, c: BExpr): Plan
    decreases p
  {
    match p
    case Join(left, right, kind, on, fs) =>
      var used := PrefixesOf(Cols(c));
      if used <= SubtreePrefixes(right) then Join(left, PushInto(right, c), kind, on, fs)
      else if kind == Inner && used <= SubtreePrefixes(left) then Join(PushInto(left, c), right, kind, on, fs)
      else Filter(p, c)
    case Filter(input, pred) => Filter(PushInto(input, c), pred)
    case _ => Filter(p, c)
  }

  function PushEach(p: Plan, cs: seq<BExpr>): Plan
    decreases |cs|
  {
    if cs == [] then p else PushEach(PushInto(p, cs[0]), cs[1..])
  }

  function PushDown(p: Plan): Plan
    decreases p
  {
    match p
    case Filter(input, pred) => PushEach(PushDown(input), Conjuncts(pred))
    case Project(input, exprs, fs) => Project(PushDown(input), exprs, fs)
    case Aggregate(input, exprs, spec, fs) => Aggregate(PushDown(input), exprs, spec, fs)
    case Join(left, right, kind, on, fs) => Join(PushDown(left), PushDown(right), kind, on, fs)
    case Sort(input, keys) => Sort(PushDown(input), keys)
    case Limit(input, limit, offset) => Limit(PushDown(input), limit, offset)
    case UnionAll(branches, fs) =>
      UnionAll(seq(|branches|, i requires 0 <= i < |branches| => PushDown(branches[i])), fs)
    case Scan(_, _) => p
    case Values(_, _) => p
  }

  function Total(xs: seq<nat>): (n: nat)
    ensures forall i :: 0 <= i < |xs| ==> xs[i] <= n
  {
    if xs == [] then 0 else xs[0] + Total(xs[1..])
  }

  /** The number of nodes: what `merge_filters` shrinks. */
  function Size(p: Plan): nat
    decreases p
  {
    match p
    case Scan(_, _) => 1
    case Values(_, _) => 1
    case Filter(input, _) => 1 + Size(input)
    case Project(input, _, _) => 1 + Size(input)
    case Aggregate(input, _, _, _) => 1 + Size(input)
    case Join(left, right, _, _, _) => 1 + Size(left) + Size(right)
    case Sort(input, _) => 1 + Size(input)
    case Limit(input, _, _) => 1 + Size(input)
    case UnionAll(branches, _) => 1 + Total(seq(|branches|, i requires 0 <= i < |branches| => Size(branches[i])))
  }

  lemma {:induction false} TotalMonotone(xs: seq<nat>, ys: seq<nat>)
    requires |xs| == |ys| && forall i :: 0 <= i < |xs| ==> xs[i] <= ys[i]
    ensures Total(xs) <= Total(ys)
  {
    if xs != [] { TotalMonotone(xs[1..], ys[1..]); }
  }

  lemma BranchSmaller(p: Plan, i: nat)
    requires p.UnionAll? && i < |p.branches|
    ensures Size(p.branches[i]) < Size(p)
  {
    var sizes := seq(|p.branches|, j requires 0 <= j < |p.branches| => Size(p.branches[j]));
    assert sizes[i] == Size(p.branches[i]);
  }

  function MergeFilters(p: Plan): (r: Plan)
    ensures Size(r) <= Size(p)
    decreases Size(p)
  {
    match p
    case Filter(input, pred) =>
      var merged := MergeFilters(input);
      if merged.Filter? then MergeFilters(Filter(merged.input, AndOf([pred, merged.pred])))
      else Filter(merged, pred)
    case Project(input, exprs, fs) => Project(MergeFilters(input), exprs, fs)
    case Aggregate(input, exprs, spec, fs) => Aggregate(MergeFilters(input), exprs, spec, fs)
    case Join(left, right, kind, on, fs) => Join(MergeFilters(left), MergeFilters(right), kind, on, fs)
    case Sort(input, keys) => Sort(MergeFilters(input), keys)
    case Limit(input, limit, offset) => Limit(MergeFilters(input), limit, offset)
    case UnionAll(branches, fs) =>
      assert forall i :: 0 <= i < |branches| ==> Size(branches[i]) < Size(p) by {
        forall i | 0 <= i < |branches| ensures Size(branches[i]) < Size(p) { BranchSmaller(p, i); }
      }
      var merged := seq(|branches|, i requires 0 <= i < |branches| => MergeFilters(branches[i]));
      TotalMonotone(seq(|merged|, i requires 0 <= i < |merged| => Size(merged[i])),
                    seq(|branches|, i requires 0 <= i < |branches| => Size(branches[i])));
      UnionAll(merged, fs)
    case Scan(_, _) => p
    case Values(_, _) => p
  }

  // ── Selection ──────────────────────────────────────────────────────────────

  lemma {:induction false} SelectAppend(w: World, e: BExpr, fs: seq<Field>, a: seq<Row>, b: seq<Row>)
    ensures Select(w, e, fs, a + b) == Select(w, e, fs, a) + Select(w, e, fs, b)
  {
    if a == [] {
      assert a + b == b;
    } else {
      var first := if Holds(w, e, fs, a[0]) then [a[0]] else [];
      assert (a + b)[0] == a[0] && (a + b)[1..] == a[1..] + b;
      SelectAppend(w, e, fs, a[1..], b);
      Assoc(first, Select(w, e, fs, a[1..]), Select(w, e, fs, b));
    }
  }

  lemma SelectCons(w: World, e: BExpr, fs: seq<Field>, a: Row, rows: seq<Row>)
    ensures Select(w, e, fs, [a] + rows) == (if Holds(w, e, fs, a) then [a] else []) + Select(w, e, fs, rows)
  {
    assert ([a] + rows)[1..] == rows;
  }

  lemma {:induction false} SelectTwice(w: World, a: BExpr, b: BExpr, fs: seq<Field>, rows: seq<Row>)
    ensures Select(w, a, fs, Select(w, b, fs, rows)) == Select(w, AndOf([a, b]), fs, rows)
  {
    if rows != [] {
      var rest := Select(w, b, fs, rows[1..]);
      SelectTwice(w, a, b, fs, rows[1..]);
      SelectCons(w, a, fs, rows[0], rest);
      PairHolds(w, a, b, fs, rows[0]);
      if !Holds(w, b, fs, rows[0]) { assert [] + rest == rest; }
    }
  }

  lemma PairHolds(w: World, a: BExpr, b: BExpr, fs: seq<Field>, row: Row)
    ensures Holds(w, AndOf([a, b]), fs, row) <==> Holds(w, a, fs, row) && Holds(w, b, fs, row)
  {
    var parts := [a, b];
    var vs := seq(|parts|, i requires 0 <= i < |parts| => Eval(w, parts[i], fs, row));
    assert vs[0] == Eval(w, a, fs, row) && vs[1] == Eval(w, b, fs, row);
  }

  lemma {:induction false} SelectCommutes(w: World, a: BExpr, b: BExpr, fs: seq<Field>, rows: seq<Row>)
    ensures Select(w, a, fs, Select(w, b, fs, rows)) == Select(w, b, fs, Select(w, a, fs, rows))
  {
    SelectTwice(w, a, b, fs, rows);
    SelectTwice(w, b, a, fs, rows);
    forall row | row in rows ensures Holds(w, AndOf([a, b]), fs, row) <==> Holds(w, AndOf([b, a]), fs, row) {
      PairHolds(w, a, b, fs, row);
      PairHolds(w, b, a, fs, row);
    }
    SelectSame(w, AndOf([a, b]), AndOf([b, a]), fs, rows);
  }

  lemma {:induction false} SelectSame(w: World, a: BExpr, b: BExpr, fs: seq<Field>, rows: seq<Row>)
    requires forall row :: row in rows ==> (Holds(w, a, fs, row) <==> Holds(w, b, fs, row))
    ensures Select(w, a, fs, rows) == Select(w, b, fs, rows)
  {
    if rows != [] { SelectSame(w, a, b, fs, rows[1..]); }
  }

  function SelectEach(w: World, cs: seq<BExpr>, fs: seq<Field>, rows: seq<Row>): seq<Row>
    decreases |cs|
  {
    if cs == [] then rows else SelectEach(w, cs[1..], fs, Select(w, cs[0], fs, rows))
  }

  ghost predicate AllHold(w: World, cs: seq<BExpr>, fs: seq<Field>, row: Row)
  {
    forall i :: 0 <= i < |cs| ==> Holds(w, cs[i], fs, row)
  }

  lemma {:induction false} SelectEachCons(w: World, cs: seq<BExpr>, fs: seq<Field>, row: Row, rows: seq<Row>)
    ensures SelectEach(w, cs, fs, [row] + rows) ==
            (if AllHold(w, cs, fs, row) then [row] else []) + SelectEach(w, cs, fs, rows)
    decreases |cs|
  {
    if cs != [] {
      var c, rest := cs[0], cs[1..];
      SelectCons(w, c, fs, row, rows);
      var kept := Select(w, c, fs, rows);
      assert AllHold(w, cs, fs, row) <==> Holds(w, c, fs, row) && AllHold(w, rest, fs, row) by {
        assert cs == [c] + rest;
      }
      if Holds(w, c, fs, row) {
        SelectEachCons(w, rest, fs, row, kept);
      } else {
        assert [] + kept == kept;
      }
    }
  }

  lemma {:induction false} SelectEachEmpty(w: World, cs: seq<BExpr>, fs: seq<Field>)
    ensures SelectEach(w, cs, fs, []) == []
    decreases |cs|
  {
    if cs != [] { SelectEachEmpty(w, cs[1..], fs); }
  }

  /** Filtering by the conjuncts one after the other is filtering by the predicate. */
  lemma {:induction false} SelectConjuncts(w: World, e: BExpr, fs: seq<Field>, rows: seq<Row>)
    ensures SelectEach(w, Conjuncts(e), fs, rows) == Select(w, e, fs, rows)
  {
    if rows == [] {
      SelectEachEmpty(w, Conjuncts(e), fs);
    } else {
      assert rows == [rows[0]] + rows[1..];
      SelectEachCons(w, Conjuncts(e), fs, rows[0], rows[1..]);
      SelectConjuncts(w, e, fs, rows[1..]);
      ConjunctsHold(w, e, fs, rows[0]);
    }
  }

  /** Under three-valued logic a conjunction is true exactly when every conjunct is. */
  lemma {:induction false} ConjunctsHold(w: World, e: BExpr, fs: seq<Field>, row: Row)
    ensures AllHold(w, Conjuncts(e), fs, row) <==> Holds(w, e, fs, row)
    decreases e
  {
    if e.And? {
      var parts := e.parts;
      var lists := seq(|parts|, i requires 0 <= i < |parts| => Conjuncts(parts[i]));
      var vs := seq(|parts|, i requires 0 <= i < |parts| => Eval(w, parts[i], fs, row));
      forall i | 0 <= i < |parts|
        ensures AllHold(w, lists[i], fs, row) <==> vs[i] == Bool(true)
      {
        ConjunctsHold(w, parts[i], fs, row);
      }
      ConcatHold(w, lists, fs, row);
    } else {
      var cs := Conjuncts(e);
      assert cs == [e] && cs[0] == e;
    }
  }

  lemma {:induction false} ConcatHold(w: World, lists: seq<seq<BExpr>>, fs: seq<Field>, row: Row)
    ensures AllHold(w, Concat(lists), fs, row) <==> forall i :: 0 <= i < |lists| ==> AllHold(w, lists[i], fs, row)
  {
    if lists != [] {
      var a, b := lists[0], Concat(lists[1..]);
      ConcatHold(w, lists[1..], fs, row);
      assert AllHold(w, a + b, fs, row) <==> AllHold(w, a, fs, row) && AllHold(w, b, fs, row) by {
        if AllHold(w, a + b, fs, row) {
          forall i | 0 <= i < |a| ensures Holds(w, a[i], fs, row) { assert (a + b)[i] == a[i]; }
          forall i | 0 <= i < |b| ensures Holds(w, b[i], fs, row) { assert (a + b)[|a| + i] == b[i]; }
        }
      }
      assert lists == [a] + lists[1..];
    }
  }

  lemma {:induction false} ConjunctsRead(e: BExpr, fs: seq<Field>)
    requires Reads(e, fs)
    ensures forall i :: 0 <= i < |Conjuncts(e)| ==> Reads(Conjuncts(e)[i], fs)
    decreases e
  {
    if e.And? {
      var lists := seq(|e.parts|, i requires 0 <= i < |e.parts| => Conjuncts(e.parts[i]));
      forall i | 0 <= i < |lists| ensures ReadAll(lists[i], fs) {
        ConjunctsRead(e.parts[i], fs);
      }
      ConcatRead(lists, fs);
    }
  }

  ghost predicate ReadAll(cs: seq<BExpr>, fs: seq<Field>)
  {
    forall i :: 0 <= i < |cs| ==> Reads(cs[i], fs)
  }

  lemma {:induction false} ConcatRead(lists: seq<seq<BExpr>>, fs: seq<Field>)
    requires forall i :: 0 <= i < |lists| ==> ReadAll(lists[i], fs)
    ensures ReadAll(Concat(lists), fs)
  {
    if lists != [] { ConcatRead(lists[1..], fs); }
  }

  // ── Selection and joins ────────────────────────────────────────────────────

  lemma {:induction false} SelectMatchesRight(
    w: World, c: BExpr, on: seq<(string, string)>, lf: seq<Field>, rf: seq<Field>, l: Row, rows: seq<Row>)
    requires |l| == |lf| && Arity(rows, |rf|) && PrefixesOf(Names(lf)) !! PrefixesOf(Names(rf))
    requires PrefixesOf(Cols(c)) <= PrefixesOf(Names(rf))
    ensures Select(w, c, lf + rf, Matches(w, on, lf, rf, l, rows)) == Matches(w, on, lf, rf, l, Select(w, c, rf, rows))
  {
    if rows != [] {
      var r, rest := rows[0], rows[1..];
      SelectMatchesRight(w, c, on, lf, rf, l, rest);
      HoldsOnRight(w, c, lf, rf, l, r);
      var ms := Matches(w, on, lf, rf, l, rest);
      SelectCons(w, c, lf + rf, l + r, ms);
      assert ([r] + Select(w, c, rf, rest))[1..] == Select(w, c, rf, rest);
      assert [] + ms == ms && [] + Select(w, c, rf, rest) == Select(w, c, rf, rest);
    }
  }

  lemma {:induction false} SelectMatchesLeft(
    w: World, c: BExpr, on: seq<(string, string)>, lf: seq<Field>, rf: seq<Field>, l: Row, rows: seq<Row>)
    requires |l| == |lf| && Arity(rows, |rf|) && Reads(c, lf)
    ensures Select(w, c, lf + rf, Matches(w, on, lf, rf, l, rows)) ==
            if Holds(w, c, lf, l) then Matches(w, on, lf, rf, l, rows) else []
  {
    if rows != [] {
      var r, rest := rows[0], rows[1..];
      SelectMatchesLeft(w, c, on, lf, rf, l, rest);
      HoldsOnLeft(w, c, lf, rf, l, r);
      var ms := Matches(w, on, lf, rf, l, rest);
      SelectCons(w, c, lf + rf, l + r, ms);
      assert [] + ms == ms;
    }
  }

  /** INNER joins: a right-hand conjunct may filter the right input first. */
  lemma {:induction false} SelectJoinRight(
    w: World, c: BExpr, on: seq<(string, string)>, lf: seq<Field>, rf: seq<Field>, left: seq<Row>, right: seq<Row>)
    requires Arity(left, |lf|) && Arity(right, |rf|) && PrefixesOf(Names(lf)) !! PrefixesOf(Names(rf))
    requires PrefixesOf(Cols(c)) <= PrefixesOf(Names(rf))
    ensures Select(w, c, lf + rf, JoinRows(w, Inner, on, lf, rf, left, right)) ==
            JoinRows(w, Inner, on, lf, rf, left, Select(w, c, rf, right))
    decreases |left|
  {
    if left != [] {
      SelectJoinRight(w, c, on, lf, rf, left[1..], right);
      SelectMatchesRight(w, c, on, lf, rf, left[0], right);
      SelectAppend(w, c, lf + rf, Matches(w, on, lf, rf, left[0], right),
                   JoinRows(w, Inner, on, lf, rf, left[1..], right));
    }
  }

  lemma {:induction false} SelectJoinLeft(
    w: World, c: BExpr, on: seq<(string, string)>, lf: seq<Field>, rf: seq<Field>, left: seq<Row>, right: seq<Row>)
    requires Arity(left, |lf|) && Arity(right, |rf|) && Reads(c, lf)
    ensures Select(w, c, lf + rf, JoinRows(w, Inner, on, lf, rf, left, right)) ==
            JoinRows(w, Inner, on, lf, rf, Select(w, c, lf, left), right)
    decreases |left|
  {
    if left != [] {
      var l, rest := left[0], left[1..];
      SelectJoinLeft(w, c, on, lf, rf, rest, right);
      SelectMatchesLeft(w, c, on, lf, rf, l, right);
      SelectAppend(w, c, lf + rf, Matches(w, on, lf, rf, l, right), JoinRows(w, Inner, on, lf, rf, rest, right));
      var kept := Select(w, c, lf, rest);
      assert ([l] + kept)[1..] == kept && [] + kept == kept;
    }
  }

  // ── Pushing one conjunct ───────────────────────────────────────────────────

  /** The conjunct never enters the right side of a LEFT join. */
  ghost predicate SafeInto(p: Plan, c: BExpr)
    decreases p
  {
    match p
    case Join(left, right, kind, _, _) =>
      var used := PrefixesOf(Cols(c));
      if used <= SubtreePrefixes(right) then kind == Inner && SafeInto(right, c)
      else kind == Inner && used <= SubtreePrefixes(left) ==> SafeInto(left, c)
    case Filter(input, _) => SafeInto(input, c)
    case _ => true
  }

  lemma {:induction false} PushIntoWf(p: Plan, c: BExpr)
    requires Wf(p) && Reads(c, Fields(p))
    ensures Wf(PushInto(p, c)) && Fields(PushInto(p, c)) == Fields(p)
    decreases p
  {
    match p {
      case Join(left, right, kind, on, fs) =>
        NamesConcat(Fields(left), Fields(right));
        var used := PrefixesOf(Cols(c));
        if used <= SubtreePrefixes(right) {
          PrefixDecides(c, Fields(right), Fields(left), fs);
          PushIntoWf(right, c);
        } else if kind == Inner && used <= SubtreePrefixes(left) {
          PrefixDecides(c, Fields(left), Fields(right), fs);
          PushIntoWf(left, c);
        }
      case Filter(input, _) => PushIntoWf(input, c);
      case _ =>
    }
  }

  /** Pushing a conjunct filters by it. */
  lemma {:induction false} PushIntoMeaning(w: World, p: Plan, c: BExpr)
    requires Wf(p) && Reads(c, Fields(p)) && SafeInto(p, c)
    ensures Denote(w, PushInto(p, c)) == Select(w, c, Fields(p), Denote(w, p))
    decreases p
  {
    match p {
      case Join(left, right, kind, on, fs) => PushJoinMeaning(w, p, c);
      case Filter(input, pred) =>
        PushIntoMeaning(w, input, c);
        PushIntoWf(input, c);
        SelectCommutes(w, pred, c, Fields(input), Denote(w, input));
      case _ =>
    }
  }

  lemma {:induction false} PushJoinMeaning(w: World, p: Plan, c: BExpr)
    requires p.Join? && Wf(p) && Reads(c, Fields(p)) && SafeInto(p, c)
    ensures Denote(w, PushInto(p, c)) == Select(w, c, Fields(p), Denote(w, p))
    decreases p, 0
  {
    var left, right := p.left, p.right;
    var lf, rf := Fields(left), Fields(right);
    NamesConcat(lf, rf);
    DenoteArity(w, left);
    DenoteArity(w, right);
    var used := PrefixesOf(Cols(c));
    if used <= SubtreePrefixes(right) {
      PrefixDecides(c, rf, lf, p.fields);
      PushIntoMeaning(w, right, c);
      PushIntoWf(right, c);
      SelectJoinRight(w, c, p.on, lf, rf, Denote(w, left), Denote(w, right));
    } else if p.kind == Inner && used <= SubtreePrefixes(left) {
      PrefixDecides(c, lf, rf, p.fields);
      PushIntoMeaning(w, left, c);
      PushIntoWf(left, c);
      SelectJoinLeft(w, c, p.on, lf, rf, Denote(w, left), Denote(w, right));
    }
  }

  ghost predicate SafeEach(p: Plan, cs: seq<BExpr>)
    decreases |cs|
  {
    cs == [] || (SafeInto(p, cs[0]) && SafeEach(PushInto(p, cs[0]), cs[1..]))
  }

  lemma {:induction false} PushEachMeaning(w: World, p: Plan, cs: seq<BExpr>)
    requires Wf(p) && ReadAll(cs, Fields(p)) && SafeEach(p, cs)
    ensures Wf(PushEach(p, cs)) && Fields(PushEach(p, cs)) == Fields(p)
    ensures Denote(w, PushEach(p, cs)) == SelectEach(w, cs, Fields(p), Denote(w, p))
    decreases |cs|
  {
    if cs != [] {
      PushIntoWf(p, cs[0]);
      PushIntoMeaning(w, p, cs[0]);
      PushEachMeaning(w, PushInto(p, cs[0]), cs[1..]);
    }
  }

  // ── The whole pass ─────────────────────────────────────────────────────────

  /** No conjunct of the plan enters the right side of a LEFT join. */
  ghost predicate SafeDown(p: Plan)
    decreases p
  {
    match p
    case Filter(input, pred) => SafeDown(input) && SafeEach(PushDown(input), Conjuncts(pred))
    case Project(input, _, _) => SafeDown(input)
    case Aggregate(input, _, _, _) => SafeDown(input)
    case Join(left, right, _, _, _) => SafeDown(left) && SafeDown(right)
    case Sort(input, _) => SafeDown(input)
    case Limit(input, _, _) => SafeDown(input)
    case UnionAll(branches, _) => forall i :: 0 <= i < |branches| ==> SafeDown(branches[i])
    case _ => true
  }

  /** Pushdown keeps the plan well formed, its fields, and its rows in order. */
  lemma {:induction false} PushDownMeaning(w: World, p: Plan)
    requires Wf(p) && SafeDown(p)
    ensures Wf(PushDown(p)) && Fields(PushDown(p)) == Fields(p)
    ensures Denote(w, PushDown(p)) == Denote(w, p)
    decreases p
  {
    match p {
      case Filter(input, pred) =>
        PushDownMeaning(w, input);
        ConjunctsRead(pred, Fields(input));
        PushEachMeaning(w, PushDown(input), Conjuncts(pred));
        SelectConjuncts(w, pred, Fields(input), Denote(w, input));
      case Project(input, _, _) => PushDownMeaning(w, input);
      case Aggregate(input, _, _, _) => PushDownMeaning(w, input);
      case Join(left, right, _, _, _) =>
        PushDownMeaning(w, left);
        PushDownMeaning(w, right);
      case Sort(input, _) => PushDownMeaning(w, input);
      case Limit(input, _, _) => PushDownMeaning(w, input);
      case UnionAll(branches, fs) =>
        forall i | 0 <= i < |branches|
          ensures Wf(PushDown(branches[i])) && Fields(PushDown(branches[i])) == Fields(branches[i])
          ensures Denote(w, PushDown(branches[i])) == Denote(w, branches[i])
        {
          PushDownMeaning(w, branches[i]);
        }
        var pushed := PushDown(p).branches;
        assert seq(|pushed|, i requires 0 <= i < |pushed| => Denote(w, pushed[i]))
            == seq(|branches|, i requires 0 <= i < |branches| => Denote(w, branches[i]));
      case _ =>
    }
  }

  // ── Merging filters ────────────────────────────────────────────────────────

  /** No filter stands directly on another. */
  predicate Unstacked(p: Plan)
    decreases p
  {
    match p
    case Filter(input, _) => !input.Filter? && Unstacked(input)
    case Project(input, _, _) => Unstacked(input)
    case Aggregate(input, _, _, _) => Unstacked(input)
    case Join(left, right, _, _, _) => Unstacked(left) && Unstacked(right)
    case Sort(input, _) => Unstacked(input)
    case Limit(input, _, _) => Unstacked(input)
    case UnionAll(branches, _) => forall i :: 0 <= i < |branches| ==> Unstacked(branches[i])
    case _ => true
  }

  lemma {:induction false} MergeFiltersMeaning(w: World, p: Plan)
    requires Wf(p)
    ensures Wf(MergeFilters(p)) && Fields(MergeFilters(p)) == Fields(p)
    ensures Denote(w, MergeFilters(p)) == Denote(w, p)
    ensures Unstacked(MergeFilters(p))
    decreases Size(p)
  {
    match p {
      case Filter(input, pred) => MergeFilterMeaning(w, p);
      case Project(input, _, _) => MergeFiltersMeaning(w, input);
      case Aggregate(input, _, _, _) => MergeFiltersMeaning(w, input);
      case Join(left, right, _, _, _) =>
        MergeFiltersMeaning(w, left);
        MergeFiltersMeaning(w, right);
      case Sort(input, _) => MergeFiltersMeaning(w, input);
      case Limit(input, _, _) => MergeFiltersMeaning(w, input);
      case UnionAll(branches, fs) =>
        var merged := MergeFilters(p).branches;
        forall i | 0 <= i < |branches|
          ensures Wf(merged[i]) && Fields(merged[i]) == Fields(branches[i]) && Unstacked(merged[i])
          ensures Denote(w, merged[i]) == Denote(w, branches[i])
        {
          BranchSmaller(p, i);
          MergeFiltersMeaning(w, branches[i]);
        }
        assert seq(|merged|, i requires 0 <= i < |merged| => Denote(w, merged[i]))
            == seq(|branches|, i requires 0 <= i < |branches| => Denote(w, branches[i]));
      case _ =>
    }
  }

  lemma {:induction false} MergeFilterMeaning(w: World, p: Plan)
    requires p.Filter? && Wf(p)
    ensures Wf(MergeFilters(p)) && Fields(MergeFilters(p)) == Fields(p)
    ensures Denote(w, MergeFilters(p)) == Denote(w, p)
    ensures Unstacked(MergeFilters(p))
    decreases Size(p), 0
  {
    var merged := MergeFilters(p.input);
    MergeFiltersMeaning(w, p.input);
    if merged.Filter? {
      var both := AndOf([p.pred, merged.pred]);
      var q := Filter(merged.input, both);
      assert Reads(both, Fields(merged.input));
      SelectTwice(w, p.pred, merged.pred, Fields(merged.input), Denote(w, merged.input));
      MergeFiltersMeaning(w, q);
    }
  }

  /** The planner's rule 3, `merge_filters(push_down(p))`. */
  lemma PushdownPreservesMeaning(w: World, p: Plan)
    requires Wf(p) && SafeDown(p)
    ensures var r := MergeFilters(PushDown(p));
            Wf(r) && Fields(r) == Fields(p) && Denote(w, r) == Denote(w, p) && Unstacked(r)
  {
    PushDownMeaning(w, p);
    MergeFiltersMeaning(w, PushDown(p));
  }

  // ── Plans whose joins are all INNER ────────────────────────────────────────

  predicate AllInner(p: Plan)
    decreases p
  {
    match p
    case Filter(input, _) => AllInner(input)
    case Project(input, _, _) => AllInner(input)
    case Aggregate(input, _, _, _) => AllInner(input)
    case Join(left, right, kind, _, _) => kind == Inner && AllInner(left) && AllInner(right)
    case Sort(input, _) => AllInner(input)
    case Limit(input, _, _) => AllInner(input)
    case UnionAll(branches, _) => forall i :: 0 <= i < |branches| ==> AllInner(branches[i])
    case _ => true
  }

  lemma {:induction false} InnerIsSafeInto(p: Plan, c: BExpr)
    requires AllInner(p)
    ensures SafeInto(p, c) && AllInner(PushInto(p, c))
    decreases p
  {
    match p {
      case Join(left, right, _, _, _) =>
        InnerIsSafeInto(left, c);
        InnerIsSafeInto(right, c);
      case Filter(input, _) => InnerIsSafeInto(input, c);
      case _ =>
    }
  }

  lemma {:induction false} InnerIsSafeEach(p: Plan, cs: seq<BExpr>)
    requires AllInner(p)
    ensures SafeEach(p, cs) && AllInner(PushEach(p, cs))
    decreases |cs|
  {
    if cs != [] {
      InnerIsSafeInto(p, cs[0]);
      InnerIsSafeEach(PushInto(p, cs[0]), cs[1..]);
    }
  }

  lemma {:induction false} InnerIsSafe(p: Plan)
    requires AllInner(p)
    ensures SafeDown(p) && AllInner(PushDown(p))
    decreases p
  {
    match p {
      case Filter(input, pred) =>
        InnerIsSafe(input);
        InnerIsSafeEach(PushDown(input), Conjuncts(pred));
      case Project(input, _, _) => InnerIsSafe(input);
      case Aggregate(input, _, _, _) => InnerIsSafe(input);
      case Join(left, right, _, _, _) =>
        InnerIsSafe(left);
        InnerIsSafe(right);
      case Sort(input, _) => InnerIsSafe(input);
      case Limit(input, _, _) => InnerIsSafe(input);
      case UnionAll(branches, _) =>
        forall i | 0 <= i < |branches| ensures SafeDown(branches[i]) && AllInner(PushDown(branches[i])) {
          InnerIsSafe(branches[i]);
        }
      case _ =>
    }
  }

  /** For every well-formed plan whose joins are all INNER, the rewrite changes nothing. */
  lemma InnerPushdownPreservesMeaning(w: World, p: Plan)
    requires Wf(p) && AllInner(p)
    ensures Denote(w, MergeFilters(PushDown(p))) == Denote(w, p)
  {
    InnerIsSafe(p);
    PushdownPreservesMeaning(w, p);
  }

  // ── LEFT joins: exactly when the right-hand push is wrong ──────────────────

  /** A LEFT join of two literal inputs. */
  function LeftJoin(lf: seq<Field>, rf: seq<Field>, on: seq<(string, string)>, left: seq<Row>, right: seq<Row>): Plan
  {
    Join(Values(lf, left), Values(rf, right), Left, on, lf + rf)
  }

  /** One left row survives a right-hand push unchanged: a match passes the conjunct, or there
      is no match at all and the conjunct accepts the null extension. */
  ghost predicate RowUnharmed(
    w: World, c: BExpr, on: seq<(string, string)>, lf: seq<Field>, rf: seq<Field>, l: Row, right: seq<Row>)
  {
    || (exists r :: r in right && Matched(w, on, lf, rf, l, r) && Holds(w, c, rf, r))
    || ((forall r :: r in right ==> !Matched(w, on, lf, rf, l, r)) && Holds(w, c, rf, Nulls(|rf|)))
  }

  lemma {:induction false} MatchesEmpty(w: World, on: seq<(string, string)>, lf: seq<Field>, rf: seq<Field>, l: Row, rows: seq<Row>)
    ensures Matches(w, on, lf, rf, l, rows) == [] <==> forall r :: r in rows ==> !Matched(w, on, lf, rf, l, r)
  {
    if rows != [] {
      MatchesEmpty(w, on, lf, rf, l, rows[1..]);
      assert rows == [rows[0]] + rows[1..];
    }
  }

  lemma {:induction false} SelectedRows(w: World, c: BExpr, fs: seq<Field>, rows: seq<Row>)
    ensures forall r :: r in Select(w, c, fs, rows) <==> r in rows && Holds(w, c, fs, r)
  {
    if rows != [] {
      SelectedRows(w, c, fs, rows[1..]);
      assert rows == [rows[0]] + rows[1..];
    }
  }

  /** Per left row: the pushed form differs from the filtered join by exactly one extra
      null-extended row, and only when the row is harmed. */
  lemma LeftRowExact(
    w: World, c: BExpr, on: seq<(string, string)>, lf: seq<Field>, rf: seq<Field>, l: Row, right: seq<Row>)
    requires |l| == |lf| && Arity(right, |rf|) && PrefixesOf(Names(lf)) !! PrefixesOf(Names(rf))
    requires PrefixesOf(Cols(c)) <= PrefixesOf(Names(rf))
    ensures JoinRow(w, Left, on, lf, rf, l, Select(w, c, rf, right)) ==
            Select(w, c, lf + rf, JoinRow(w, Left, on, lf, rf, l, right))
            + if RowUnharmed(w, c, on, lf, rf, l, right) then [] else [l + Nulls(|rf|)]
  {
    var ms := Matches(w, on, lf, rf, l, right);
    SelectMatchesRight(w, c, on, lf, rf, l, right);
    MatchesEmpty(w, on, lf, rf, l, right);
    MatchesEmpty(w, on, lf, rf, l, Select(w, c, rf, right));
    SelectedRows(w, c, rf, right);
    HoldsOnRight(w, c, lf, rf, l, Nulls(|rf|));
    if ms == [] {
      var ext := l + Nulls(|rf|);
      assert [ext] + [] == [ext];
      SelectCons(w, c, lf + rf, ext, []);
    }
  }

  lemma {:induction false} LeftJoinGrows(
    w: World, c: BExpr, on: seq<(string, string)>, lf: seq<Field>, rf: seq<Field>, left: seq<Row>, right: seq<Row>)
    requires Arity(left, |lf|) && Arity(right, |rf|) && PrefixesOf(Names(lf)) !! PrefixesOf(Names(rf))
    requires PrefixesOf(Cols(c)) <= PrefixesOf(Names(rf))
    ensures var pushed := JoinRows(w, Left, on, lf, rf, left, Select(w, c, rf, right));
            var kept := Select(w, c, lf + rf, JoinRows(w, Left, on, lf, rf, left, right));
            && |pushed| >= |kept|
            && (pushed == kept <==> forall l :: l in left ==> RowUnharmed(w, c, on, lf, rf, l, right))
    decreases |left|
  {
    if left != [] {
      var l, rest := left[0], left[1..];
      assert left == [l] + rest;
      LeftJoinGrows(w, c, on, lf, rf, rest, right);
      LeftRowExact(w, c, on, lf, rf, l, right);
      var a, b := JoinRow(w, Left, on, lf, rf, l, right), JoinRows(w, Left, on, lf, rf, rest, right);
      SelectAppend(w, c, lf + rf, a, b);
      var pa, pb := JoinRow(w, Left, on, lf, rf, l, Select(w, c, rf, right)),
                    JoinRows(w, Left, on, lf, rf, rest, Select(w, c, rf, right));
      var ka, kb := Select(w, c, lf + rf, a), Select(w, c, lf + rf, b);
      SamePieces(pa, pb, ka, kb);
    }
  }

  /** Two concatenations whose pieces only grow are equal exactly when their pieces are. */
  lemma SamePieces<T>(pa: seq<T>, pb: seq<T>, ka: seq<T>, kb: seq<T>)
    requires |pa| >= |ka| && |pb| >= |kb|
    ensures pa + pb == ka + kb <==> pa == ka && pb == kb
  {
    if pa + pb == ka + kb {
      assert |pa + pb| == |ka + kb|;
      assert (pa + pb)[..|pa|] == pa && (ka + kb)[..|ka|] == ka;
      assert (pa + pb)[|pa|..] == pb && (ka + kb)[|ka|..] == kb;
    }
  }

  /** A LEFT join below which the rewrite sends the conjunct. */
  ghost predicate PushedRight(p: Plan, c: BExpr)
  {
    && p.Join? && p.kind == Left && Wf(p) && Reads(c, Fields(p))
    && PrefixesOf(Cols(c)) <= SubtreePrefixes(p.right) && SafeInto(p.right, c)
  }

  lemma PushedLeftJoin(w: World, p: Plan, c: BExpr)
    requires PushedRight(p, c)
    ensures var lf, rf, left, right := Fields(p.left), Fields(p.right), Denote(w, p.left), Denote(w, p.right);
            && Denote(w, PushInto(p, c)) == JoinRows(w, Left, p.on, lf, rf, left, Select(w, c, rf, right))
            && Denote(w, Filter(p, c)) == Select(w, c, lf + rf, JoinRows(w, Left, p.on, lf, rf, left, right))
  {
    var lf, rf := Fields(p.left), Fields(p.right);
    NamesConcat(lf, rf);
    PrefixDecides(c, rf, lf, p.fields);
    PushIntoMeaning(w, p.right, c);
    PushIntoWf(p.right, c);
  }

  /** For any two inputs: the push preserves the rows of a LEFT join exactly when no left row is
      harmed; otherwise null-extended rows reappear. */
  lemma LeftPushExactIff(w: World, p: Plan, c: BExpr)
    requires PushedRight(p, c)
    ensures Denote(w, PushInto(p, c)) == Denote(w, Filter(p, c)) <==>
              forall l :: l in Denote(w, p.left) ==> RowUnharmed(w, c, p.on, Fields(p.left), Fields(p.right), l, Denote(w, p.right))
  {
    PushedLeftJoin(w, p, c);
    DenoteArity(w, p.left);
    DenoteArity(w, p.right);
    LeftJoinGrows(w, c, p.on, Fields(p.left), Fields(p.right), Denote(w, p.left), Denote(w, p.right));
  }

  /** The conjunct cannot reject anything the LEFT join shows it. */
  ghost predicate NeverRejects(w: World, c: BExpr, on: seq<(string, string)>, lf: seq<Field>, rf: seq<Field>)
  {
    && Holds(w, c, rf, Nulls(|rf|))
    && forall l: Row, r: Row :: |l| == |lf| && |r| == |rf| && Matched(w, on, lf, rf, l, r) ==> Holds(w, c, rf, r)
  }

  ghost predicate Over(p: Plan, on: seq<(string, string)>, lf: seq<Field>, rf: seq<Field>)
  {
    p.Join? && p.on == on && Fields(p.left) == lf && Fields(p.right) == rf
  }

  /** Pushing is right for every pair of inputs with these columns. */
  ghost predicate PushSound(w: World, c: BExpr, on: seq<(string, string)>, lf: seq<Field>, rf: seq<Field>)
  {
    forall p :: PushedRight(p, c) && Over(p, on, lf, rf) ==> Denote(w, PushInto(p, c)) == Denote(w, Filter(p, c))
  }

  ghost predicate LeftPushable(c: BExpr, on: seq<(string, string)>, lf: seq<Field>, rf: seq<Field>)
  {
    && DistinctNames(lf) && DistinctNames(rf) && JoinFields(lf, rf, on)
    && Reads(c, lf + rf) && PrefixesOf(Cols(c)) <= PrefixesOf(Names(rf))
  }

  /** The right-hand push below a LEFT join is sound for all inputs exactly for conjuncts that
      reject neither the null extension nor any matching row — that is, useless ones. */
  lemma LeftPushSoundIffUseless(w: World, c: BExpr, on: seq<(string, string)>, lf: seq<Field>, rf: seq<Field>)
    requires LeftPushable(c, on, lf, rf)
    ensures PushSound(w, c, on, lf, rf) <==> NeverRejects(w, c, on, lf, rf)
  {
    if NeverRejects(w, c, on, lf, rf) {
      forall p | PushedRight(p, c) && Over(p, on, lf, rf) ensures Denote(w, PushInto(p, c)) == Denote(w, Filter(p, c)) {
        UselessIsSound(w, p, c);
      }
    } else {
      var p := HarmfulJoin(w, c, on, lf, rf);
    }
  }

  lemma LiteralJoin(c: BExpr, on: seq<(string, string)>, lf: seq<Field>, rf: seq<Field>, left: seq<Row>, right: seq<Row>)
    requires LeftPushable(c, on, lf, rf) && Arity(left, |lf|) && Arity(right, |rf|)
    ensures var p := LeftJoin(lf, rf, on, left, right); PushedRight(p, c) && Over(p, on, lf, rf)
  {
    var p := LeftJoin(lf, rf, on, left, right);
    assert Fields(p.left) == lf && Fields(p.right) == rf && Wf(p.left) && Wf(p.right);
  }

  lemma {:induction false} HarmfulJoin(w: World, c: BExpr, on: seq<(string, string)>, lf: seq<Field>, rf: seq<Field>) returns (p: Plan)
    requires LeftPushable(c, on, lf, rf) && !NeverRejects(w, c, on, lf, rf)
    ensures PushedRight(p, c) && Over(p, on, lf, rf) && Denote(w, PushInto(p, c)) != Denote(w, Filter(p, c))
  {
    var l, right := HarmfulData(w, c, on, lf, rf);
    p := LeftJoin(lf, rf, on, [l], right);
    LiteralJoin(c, on, lf, rf, [l], right);
    LeftPushExactIff(w, p, c);
    assert Denote(w, p.left) == [l] && Denote(w, p.right) == right;
    assert l in [l];
    assert l in Denote(w, p.left) && !RowUnharmed(w, c, p.on, Fields(p.left), Fields(p.right), l, Denote(w, p.right));
  }

  lemma UselessIsSound(w: World, p: Plan, c: BExpr)
    requires PushedRight(p, c) && NeverRejects(w, c, p.on, Fields(p.left), Fields(p.right))
    ensures Denote(w, PushInto(p, c)) == Denote(w, Filter(p, c))
  {
    var lf, rf, left, right := Fields(p.left), Fields(p.right), Denote(w, p.left), Denote(w, p.right);
    DenoteArity(w, p.left);
    DenoteArity(w, p.right);
    forall l | l in left ensures RowUnharmed(w, c, p.on, lf, rf, l, right) { }
    LeftPushExactIff(w, p, c);
  }

  lemma HarmfulData(w: World, c: BExpr, on: seq<(string, string)>, lf: seq<Field>, rf: seq<Field>)
    returns (l: Row, right: seq<Row>)
    requires !NeverRejects(w, c, on, lf, rf)
    ensures |l| == |lf| && Arity(right, |rf|) && !RowUnharmed(w, c, on, lf, rf, l, right)
  {
    if !Holds(w, c, rf, Nulls(|rf|)) {
      l, right := Nulls(|lf|), [];
    } else {
      var a: Row, b: Row :| |a| == |lf| && |b| == |rf| && Matched(w, on, lf, rf, a, b) && !Holds(w, c, rf, b);
      l, right := a, [b];
      assert b in right;
    }
  }

  function FieldA(): seq<Field> { [Field("a.k", Fixed(8))] }
  function FieldB(): seq<Field> { [Field("b.k", Fixed(8))] }

  /** One row on the left, none on the right. */
  function Lonely(): Plan
  {
    LeftJoin(FieldA(), FieldB(), [("a.k", "b.k")], [[Datum(1)]], [])
  }

  lemma LonelyWf()
    ensures Wf(Lonely())
  {
    var lf, rf := FieldA(), FieldB();
    assert lf[0].name in Names(lf) && rf[0].name in Names(rf);
    forall n | n in PrefixesOf(Names(lf)) ensures n == "a" {
      assert PrefixOf("a.k") == ['a'] + PrefixOf(".k");
    }
    forall n | n in PrefixesOf(Names(rf)) ensures n == "b" {
      assert PrefixOf("b.k") == ['b'] + PrefixOf(".k");
    }
  }

  lemma LonelyRows(w: World, right: seq<Row>)
    requires right == []
    ensures JoinRows(w, Left, [("a.k", "b.k")], FieldA(), FieldB(), [[Datum(1)]], right) == [[Datum(1), Null]]
  {
    var one := [[Datum(1)]];
    assert one[1..] == [];
    assert [Datum(1)] + Nulls(1) == [Datum(1), Null];
    assert JoinRow(w, Left, [("a.k", "b.k")], FieldA(), FieldB(), one[0], right) == [[Datum(1), Null]];
  }

  /** The concrete case: `a LEFT JOIN b ON a.k = b.k WHERE FALSE` keeps every left row. */
  lemma WhereFalseKeepsRows(w: World)
    ensures Wf(Filter(Lonely(), Literal(Bool(false))))
    ensures Denote(w, Filter(Lonely(), Literal(Bool(false)))) == []
    ensures Denote(w, PushDown(Filter(Lonely(), Literal(Bool(false))))) == [[Datum(1), Null]]
  {
    var c, p := Literal(Bool(false)), Lonely();
    LonelyWf();
    LonelyRows(w, []);
    assert PushedRight(p, c);
    PushedLeftJoin(w, p, c);
    var shown := [[Datum(1), Null]];
    assert shown[1..] == [];
    assert PushDown(p) == p;
    assert Conjuncts(c) == [c] && [c][1..] == [];
    assert PushEach(p, [c]) == PushEach(PushInto(p, c), []);
  }

  // ── How far everything is pushed ───────────────────────────────────────────

  /** The first node below a stack of filters. */
  function Base(p: Plan): Plan
  {
    if p.Filter? then Base(p.input) else p
  }

  /** Right above a join a conjunct stays only if the right side does not cover what it reads, and the
      left side of an INNER join does not either. */
  predicate Stays(base: Plan, c: BExpr)
  {
    base.Join? ==>
      && !(PrefixesOf(Cols(c)) <= SubtreePrefixes(base.right))
      && !(base.kind == Inner && PrefixesOf(Cols(c)) <= SubtreePrefixes(base.left))
  }

  /** Nothing in the plan can be pushed further. */
  predicate Sunk(p: Plan)
    decreases p
  {
    match p
    case Scan(_, _) => true
    case Values(_, _) => true
    case Filter(input, pred) => Stays(Base(input), pred) && Sunk(input)
    case Project(input, _, _) => Sunk(input)
    case Aggregate(input, _, _, _) => Sunk(input)
    case Join(left, right, _, _, _) => Sunk(left) && Sunk(right)
    case Sort(input, _) => Sunk(input)
    case Limit(input, _, _) => Sunk(input)
    case UnionAll(branches, _) => forall i :: 0 <= i < |branches| ==> Sunk(branches[i])
  }

  lemma {:induction false} PushIntoFields(p: Plan, c: BExpr)
    ensures Fields(PushInto(p, c)) == Fields(p)
    decreases p
  {
    match p {
      case Join(left, right, _, _, _) =>
      case Filter(input, _) => PushIntoFields(input, c);
      case _ =>
    }
  }

  /** Pushing more leaves what stays above a join staying. */
  lemma {:induction false} BaseStays(p: Plan, c: BExpr, other: BExpr)
    ensures Stays(Base(PushInto(p, c)), other) <==> Stays(Base(p), other)
    decreases p
  {
    match p {
      case Join(left, right, _, _, _) => PushIntoFields(left, c); PushIntoFields(right, c);
      case Filter(input, _) => BaseStays(input, c, other);
      case _ =>
    }
  }

  lemma {:induction false} PushIntoSinks(p: Plan, c: BExpr)
    requires Sunk(p)
    ensures Sunk(PushInto(p, c))
    decreases p
  {
    match p {
      case Join(left, right, _, _, _) => PushIntoSinks(left, c); PushIntoSinks(right, c);
      case Filter(input, pred) => PushIntoSinks(input, c); BaseStays(input, c, pred);
      case _ =>
    }
  }

  lemma {:induction false} PushEachSinks(p: Plan, cs: seq<BExpr>)
    requires Sunk(p)
    ensures Sunk(PushEach(p, cs))
    decreases |cs|
  {
    if cs != [] {
      PushIntoSinks(p, cs[0]);
      PushEachSinks(PushInto(p, cs[0]), cs[1..]);
    }
  }

  /** After the pass no conjunct sits above a join one of whose sides could take it. */
  lemma {:induction false} PushDownSinks(p: Plan)
    ensures Sunk(PushDown(p))
    decreases p
  {
    match p {
      case Scan(_, _) =>
      case Values(_, _) =>
      case Filter(input, pred) => PushDownSinks(input); PushEachSinks(PushDown(input), Conjuncts(pred));
      case Project(input, _, _) => PushDownSinks(input);
      case Aggregate(input, _, _, _) => PushDownSinks(input);
      case Join(left, right, _, _, _) => PushDownSinks(left); PushDownSinks(right);
      case Sort(input, _) => PushDownSinks(input);
      case Limit(input, _, _) => PushDownSinks(input);
      case UnionAll(branches, _) =>
        forall i | 0 <= i < |branches| ensures Sunk(PushDown(branches[i])) { PushDownSinks(branches[i]); }
    }
  }

  /** No filter right above a filter. */
  predicate Merged(p: Plan)
    decreases p
  {
    match p
    case Scan(_, _) => true
    case Values(_, _) => true
    case Filter(input, _) => !input.Filter? && Merged(input)
    case Project(input, _, _) => Merged(input)
    case Aggregate(input, _, _, _) => Merged(input)
    case Join(left, right, _, _, _) => Merged(left) && Merged(right)
    case Sort(input, _) => Merged(input)
    case Limit(input, _, _) => Merged(input)
    case UnionAll(branches, _) => forall i :: 0 <= i < |branches| ==> Merged(branches[i])
  }

  lemma {:induction false} MergeFiltersMerges(p: Plan)
    ensures Merged(MergeFilters(p))
    decreases Size(p)
  {
    match p {
      case Scan(_, _) =>
      case Values(_, _) =>
      case Filter(input, pred) =>
        MergeFiltersMerges(input);
        var merged := MergeFilters(input);
        if merged.Filter? { MergeFiltersMerges(Filter(merged.input, AndOf([pred, merged.pred]))); }
      case Project(input, _, _) => MergeFiltersMerges(input);
      case Aggregate(input, _, _, _) => MergeFiltersMerges(input);
      case Join(left, right, _, _, _) => MergeFiltersMerges(left); MergeFiltersMerges(right);
      case Sort(input, _) => MergeFiltersMerges(input);
      case Limit(input, _, _) => MergeFiltersMerges(input);
      case UnionAll(branches, _) =>
        forall i | 0 <= i < |branches| ensures Merged(MergeFilters(branches[i])) {
          BranchSmaller(p, i);
          MergeFiltersMerges(branches[i]);
        }
    }
  }
}
