/** Projection pruning (src/sql/planner.rs): scans keep only the columns some node names, and the
    plan still denotes the same rows. */
module Narrow {
  import opened Relational
  import Sorting

  // ── The rewrite ────────────────────────────────────────────────────────────

  function ColsOf(exprs: seq<BExpr>): set<string>
  {
    set i, n | 0 <= i < |exprs| && n in Cols(exprs[i]) :: n
  }

  function UsedNames(p: Plan): set<string>
    decreases p
  {
    match p
    case Scan(_, _) => {}
    case Values(_, _) => {}
    case Filter(input, pred) => Cols(pred) + UsedNames(input)
    case Project(input, exprs, _) => ColsOf(exprs) + UsedNames(input)
    case Aggregate(input, exprs, _, _) => ColsOf(exprs) + UsedNames(input)
    case Join(left, right, _, on, _) => OnNames(on) + UsedNames(left) + UsedNames(right)
    case Sort(input, keys) => (set i | 0 <= i < |keys| :: keys[i].name) + UsedNames(input)
    case Limit(input, _, _) => UsedNames(input)
    case UnionAll(branches, _) => set i, n | 0 <= i < |branches| && n in UsedNames(branches[i]) :: n
  }

  function OnNames(on: seq<(string, string)>): set<string>
  {
    (set i | 0 <= i < |on| :: on[i].0) + (set i | 0 <= i < |on| :: on[i].1)
  }

  /** The first of the narrowest fixed-width fields; the first field if none has a fixed width. */
  function NarrowestField(fs: seq<Field>): (f: Field)
    requires fs != []
    ensures f in fs
  {
    if |fs| == 1 then fs[0] else Narrower2(fs[0], NarrowestField(fs[1..]))
  }

  /** The earlier field `f`, unless the later one is fixed-width and `f` is wider or variable. */
  function Narrower2(f: Field, later: Field): Field
  {
    if later.width.Variable? || (f.width.Fixed? && f.width.bytes <= later.width.bytes) then f else later
  }

  /** The narrowest fixed width of all; a variable one, the first, only if there is no other. */
  lemma {:induction false} NarrowestIs(fs: seq<Field>)
    requires fs != []
    ensures var f := NarrowestField(fs);
            && (f.width.Variable? <==> forall g :: g in fs ==> g.width.Variable?)
            && (f.width.Variable? ==> f == fs[0])
            && (f.width.Fixed? ==> forall g :: g in fs && g.width.Fixed? ==> f.width.bytes <= g.width.bytes)
  {
    if |fs| > 1 {
      NarrowestIs(fs[1..]);
      assert fs == [fs[0]] + fs[1..];
    }
  }

  lemma {:induction false} NarrowestIsEarliest(fs: seq<Field>)
    requires fs != [] && NarrowestField(fs).width.Fixed?
    ensures Earliest(fs, NarrowestField(fs))
  {
    var f := NarrowestField(fs);
    if |fs| > 1 && f != fs[0] {
      var rest := fs[1..];
      NarrowestIsEarliest(rest);
      var i :| 0 <= i < |rest| && rest[i] == f && forall j :: 0 <= j < i ==> rest[j].width != f.width;
      assert fs[i + 1] == f;
      forall j | 0 <= j < i + 1 ensures fs[j].width != f.width {
        if j > 0 { assert fs[j] == rest[j - 1]; }
      }
    } else {
      assert fs[0] == f;
    }
  }

  /** No equally narrow field comes before `f`. */
  predicate Earliest(fs: seq<Field>, f: Field)
  {
    exists i :: 0 <= i < |fs| && fs[i] == f && forall j :: 0 <= j < i ==> fs[j].width != f.width
  }

  function KeptFields(fs: seq<Field>, used: set<string>): (r: seq<Field>)
    ensures forall f :: f in r <==> f in fs && f.name in used
    ensures |r| <= |fs|
  {
    if fs == [] then []
    else
      assert fs == [fs[0]] + fs[1..];
      (if fs[0].name in used then [fs[0]] else []) + KeptFields(fs[1..], used)
  }

  function ScanFields(fs: seq<Field>, used: set<string>): seq<Field>
    requires fs != []
  {
    var kept := KeptFields(fs, used);
    if kept == [] then [NarrowestField(fs)] else kept
  }

  function PruneScans(p: Plan, used: set<string>): Plan
    requires Wf(p)
    decreases p
  {
    match p
    case Scan(table, fs) => Scan(table, ScanFields(fs, used))
    case Values(_, _) => p
    case Filter(input, pred) => Filter(PruneScans(input, used), pred)
    case Project(input, exprs, fs) => Project(PruneScans(input, used), exprs, fs)
    case Aggregate(input, exprs, spec, fs) => Aggregate(PruneScans(input, used), exprs, spec, fs)
    case Join(left, right, kind, on, _) =>
      var l, r := PruneScans(left, used), PruneScans(right, used);
      Join(l, r, kind, on, Fields(l) + Fields(r))
    case Sort(input, keys) => Sort(PruneScans(input, used), keys)
    case Limit(input, limit, offset) => Limit(PruneScans(input, used), limit, offset)
    case UnionAll(branches, fs) =>
      UnionAll(seq(|branches|, i requires 0 <= i < |branches| => PruneScans(branches[i], used)), fs)
  }

  // ── Plans whose own columns pruning must not touch ─────────────────────────

  /** The output columns do not come straight from a scan: a Project, an Aggregate or literal
      rows produce them. */
  predicate OwnColumns(p: Plan)
  {
    match p
    case Scan(_, _) => false
    case Filter(input, _) => OwnColumns(input)
    case Sort(input, _) => OwnColumns(input)
    case Limit(input, _, _) => OwnColumns(input)
    case Join(left, right, _, _, _) => OwnColumns(left) && OwnColumns(right)
    case _ => true
  }

  /** The branches of a UNION ALL are whole queries. */
  predicate UnionsOwn(p: Plan)
    decreases p
  {
    match p
    case Filter(input, _) => UnionsOwn(input)
    case Project(input, _, _) => UnionsOwn(input)
    case Aggregate(input, _, _, _) => UnionsOwn(input)
    case Join(left, right, _, _, _) => UnionsOwn(left) && UnionsOwn(right)
    case Sort(input, _) => UnionsOwn(input)
    case Limit(input, _, _) => UnionsOwn(input)
    case UnionAll(branches, _) => forall i :: 0 <= i < |branches| ==> OwnColumns(branches[i]) && UnionsOwn(branches[i])
    case _ => true
  }

  // ── Agreement on the used names ────────────────────────────────────────────

  /** `kept` drops only unused names. */
  ghost predicate Narrower(used: set<string>, fs: seq<Field>, kept: seq<Field>)
  {
    Names(kept) <= Names(fs) && forall n :: n in used && n in Names(fs) ==> n in Names(kept)
  }

  ghost predicate RowAgrees(used: set<string>, fs: seq<Field>, row: Row, kept: seq<Field>, short: Row)
  {
    |row| == |fs| && |short| == |kept| && forall n :: n in used ==> Lookup(fs, row, n) == Lookup(kept, short, n)
  }

  ghost predicate RowsAgree(used: set<string>, fs: seq<Field>, rows: seq<Row>, kept: seq<Field>, short: seq<Row>)
  {
    |rows| == |short| && forall i :: 0 <= i < |rows| ==> RowAgrees(used, fs, rows[i], kept, short[i])
  }

  lemma {:induction false} KeptDistinct(fs: seq<Field>, used: set<string>)
    requires DistinctNames(fs)
    ensures DistinctNames(KeptFields(fs, used))
  {
    if fs != [] {
      KeptDistinct(fs[1..], used);
      var rest := KeptFields(fs[1..], used);
      forall i | 0 <= i < |rest| ensures rest[i].name != fs[0].name {
        assert rest[i] in fs[1..];
        var j :| 0 <= j < |fs[1..]| && fs[1..][j] == rest[i];
        assert fs[j + 1] == rest[i];
      }
    }
  }

  lemma ScanFieldsOk(fs: seq<Field>, used: set<string>)
    requires fs != [] && DistinctNames(fs)
    ensures var kept := ScanFields(fs, used);
            kept != [] && DistinctNames(kept) && Narrower(used, fs, kept)
  {
    var kept := ScanFields(fs, used);
    KeptDistinct(fs, used);
    forall n | n in Names(kept) ensures n in Names(fs) {
      var i :| 0 <= i < |kept| && kept[i].name == n;
      assert kept[i] in fs;
    }
    forall n | n in used && n in Names(fs) ensures n in Names(kept) {
      var i :| 0 <= i < |fs| && fs[i].name == n;
      assert fs[i] in KeptFields(fs, used);
      var k :| 0 <= k < |kept| && kept[k] == fs[i];
    }
  }

  lemma {:induction false} PruneWf(p: Plan, used: set<string>)
    requires Wf(p) && UnionsOwn(p) && UsedNames(p) <= used
    ensures Wf(PruneScans(p, used)) && Narrower(used, Fields(p), Fields(PruneScans(p, used)))
    ensures OwnColumns(p) ==> Fields(PruneScans(p, used)) == Fields(p)
    decreases p
  {
    match p {
      case Scan(_, fs) => ScanFieldsOk(fs, used);
      case Values(_, _) =>
      case Filter(input, pred) => PruneWf(input, used);
      case Project(input, exprs, _) =>
        PruneWf(input, used);
        ReadsKept(exprs, Fields(input), Fields(PruneScans(input, used)), used);
      case Aggregate(input, exprs, _, _) =>
        PruneWf(input, used);
        ReadsKept(exprs, Fields(input), Fields(PruneScans(input, used)), used);
      case Join(_, _, _, _, _) => PruneJoinWf(p, used);
      case Sort(input, keys) => PruneWf(input, used);
      case Limit(input, _, _) => PruneWf(input, used);
      case UnionAll(branches, fs) =>
        forall i | 0 <= i < |branches|
          ensures Wf(PruneScans(branches[i], used)) && |Fields(PruneScans(branches[i], used))| == |fs|
        {
          PruneWf(branches[i], used);
        }
    }
  }

  lemma ReadsKept(exprs: seq<BExpr>, fs: seq<Field>, kept: seq<Field>, used: set<string>)
    requires Narrower(used, fs, kept) && ColsOf(exprs) <= used
    requires forall i :: 0 <= i < |exprs| ==> Reads(exprs[i], fs)
    ensures forall i :: 0 <= i < |exprs| ==> Reads(exprs[i], kept)
  {
    forall i | 0 <= i < |exprs| ensures Reads(exprs[i], kept) {
      forall n | n in Cols(exprs[i]) ensures n in Names(kept) { assert n in ColsOf(exprs); }
    }
  }

  lemma {:induction false} PruneJoinWf(p: Plan, used: set<string>)
    requires p.Join? && Wf(p) && UnionsOwn(p) && UsedNames(p) <= used
    ensures Wf(PruneScans(p, used)) && Narrower(used, Fields(p), Fields(PruneScans(p, used)))
    ensures OwnColumns(p) ==> Fields(PruneScans(p, used)) == Fields(p)
    decreases p, 0
  {
    PruneWf(p.left, used);
    PruneWf(p.right, used);
    var lf, rf := Fields(p.left), Fields(p.right);
    var l, r := Fields(PruneScans(p.left, used)), Fields(PruneScans(p.right, used));
    NamesConcat(lf, rf);
    NamesConcat(l, r);
    assert PrefixesOf(Names(l)) <= PrefixesOf(Names(lf)) && PrefixesOf(Names(r)) <= PrefixesOf(Names(rf));
    forall i | 0 <= i < |p.on| ensures p.on[i].0 in Names(l) && p.on[i].1 in Names(r) {
      assert p.on[i].0 in OnNames(p.on) && p.on[i].1 in OnNames(p.on);
    }
  }

  // ── Operators respect agreement ────────────────────────────────────────────

  lemma ScanAgrees(table: seq<map<string, Value>>, fs: seq<Field>, kept: seq<Field>, used: set<string>)
    requires fs != [] && kept != [] && Narrower(used, fs, kept)
    ensures RowsAgree(used, fs, ScanRows(table, fs), kept, ScanRows(table, kept))
  {
    forall i, n | 0 <= i < |table| && n in used
      ensures Lookup(fs, ReadRow(table[i], fs), n) == Lookup(kept, ReadRow(table[i], kept), n)
    {
      PositionKnown(fs, n);
      PositionKnown(kept, n);
    }
  }

  lemma {:induction false} SelectAgrees(
    w: World, e: BExpr, used: set<string>, fs: seq<Field>, rows: seq<Row>, kept: seq<Field>, short: seq<Row>)
    requires RowsAgree(used, fs, rows, kept, short) && Cols(e) <= used
    ensures RowsAgree(used, fs, Select(w, e, fs, rows), kept, Select(w, e, kept, short))
    ensures fs == kept && rows == short ==> Select(w, e, fs, rows) == Select(w, e, kept, short)
  {
    if rows != [] {
      EvalDepends(w, e, fs, rows[0], kept, short[0]);
      SelectAgrees(w, e, used, fs, rows[1..], kept, short[1..]);
    }
  }

  lemma EvalRowsAgree(
    w: World, exprs: seq<BExpr>, used: set<string>, fs: seq<Field>, rows: seq<Row>, kept: seq<Field>, short: seq<Row>)
    requires RowsAgree(used, fs, rows, kept, short) && ColsOf(exprs) <= used
    ensures EvalRows(w, exprs, fs, rows) == EvalRows(w, exprs, kept, short)
  {
    forall i | 0 <= i < |rows| ensures EvalEach(w, exprs, fs, rows[i]) == EvalEach(w, exprs, kept, short[i]) {
      forall j | 0 <= j < |exprs| ensures Eval(w, exprs[j], fs, rows[i]) == Eval(w, exprs[j], kept, short[i]) {
        assert forall n :: n in Cols(exprs[j]) ==> n in ColsOf(exprs);
        EvalDepends(w, exprs[j], fs, rows[i], kept, short[i]);
      }
    }
  }

  /** The two sides of a join before and after pruning. */
  datatype Sides = Sides(lf: seq<Field>, rf: seq<Field>, l: seq<Field>, r: seq<Field>)

  ghost predicate GoodSides(used: set<string>, on: seq<(string, string)>, s: Sides)
  {
    && Narrower(used, s.lf, s.l) && Narrower(used, s.rf, s.r) && OnNames(on) <= used
  }

  lemma JoinedRowAgrees(used: set<string>, s: Sides, a: Row, b: Row, a': Row, b': Row)
    requires Narrower(used, s.lf, s.l) && RowAgrees(used, s.lf, a, s.l, a') && RowAgrees(used, s.rf, b, s.r, b')
    ensures RowAgrees(used, s.lf + s.rf, a + b, s.l + s.r, a' + b')
  {
    forall n | n in used ensures Lookup(s.lf + s.rf, a + b, n) == Lookup(s.l + s.r, a' + b', n) {
      LookupJoined(s.lf, s.rf, a, b, n);
      LookupJoined(s.l, s.r, a', b', n);
    }
  }

  lemma MatchedAgrees(w: World, used: set<string>, on: seq<(string, string)>, s: Sides, a: Row, b: Row, a': Row, b': Row)
    requires OnNames(on) <= used && RowAgrees(used, s.lf, a, s.l, a') && RowAgrees(used, s.rf, b, s.r, b')
    ensures Matched(w, on, s.lf, s.rf, a, b) == Matched(w, on, s.l, s.r, a', b')
  {
    forall i | 0 <= i < |on|
      ensures Lookup(s.lf, a, on[i].0) == Lookup(s.l, a', on[i].0) && Lookup(s.rf, b, on[i].1) == Lookup(s.r, b', on[i].1)
    {
      assert on[i].0 in OnNames(on) && on[i].1 in OnNames(on);
    }
  }

  lemma {:induction false} MatchesAgree(
    w: World, used: set<string>, on: seq<(string, string)>, s: Sides, a: Row, a': Row, rows: seq<Row>, short: seq<Row>)
    requires GoodSides(used, on, s) && RowAgrees(used, s.lf, a, s.l, a') && RowsAgree(used, s.rf, rows, s.r, short)
    ensures RowsAgree(used, s.lf + s.rf, Matches(w, on, s.lf, s.rf, a, rows), s.l + s.r, Matches(w, on, s.l, s.r, a', short))
  {
    if rows != [] {
      MatchedAgrees(w, used, on, s, a, rows[0], a', short[0]);
      JoinedRowAgrees(used, s, a, rows[0], a', short[0]);
      MatchesAgree(w, used, on, s, a, a', rows[1..], short[1..]);
    }
  }

  lemma JoinRowAgrees(
    w: World, used: set<string>, kind: JoinKind, on: seq<(string, string)>, s: Sides, a: Row, a': Row,
    rows: seq<Row>, short: seq<Row>)
    requires GoodSides(used, on, s) && RowAgrees(used, s.lf, a, s.l, a') && RowsAgree(used, s.rf, rows, s.r, short)
    ensures RowsAgree(used, s.lf + s.rf, JoinRow(w, kind, on, s.lf, s.rf, a, rows),
                      s.l + s.r, JoinRow(w, kind, on, s.l, s.r, a', short))
  {
    MatchesAgree(w, used, on, s, a, a', rows, short);
    JoinedRowAgrees(used, s, a, Nulls(|s.rf|), a', Nulls(|s.r|));
  }

  lemma AgreeAppend(used: set<string>, fs: seq<Field>, kept: seq<Field>, a: seq<Row>, b: seq<Row>, a': seq<Row>, b': seq<Row>)
    requires RowsAgree(used, fs, a, kept, a') && RowsAgree(used, fs, b, kept, b')
    ensures RowsAgree(used, fs, a + b, kept, a' + b')
  {
  }

  lemma AgreeCons(used: set<string>, fs: seq<Field>, kept: seq<Field>, a: Row, rows: seq<Row>, a': Row, rows': seq<Row>)
    requires RowAgrees(used, fs, a, kept, a') && RowsAgree(used, fs, rows, kept, rows')
    ensures RowsAgree(used, fs, [a] + rows, kept, [a'] + rows')
  {
  }

  lemma {:induction false} JoinAgrees(
    w: World, used: set<string>, kind: JoinKind, on: seq<(string, string)>, s: Sides,
    left: seq<Row>, right: seq<Row>, left': seq<Row>, right': seq<Row>)
    requires GoodSides(used, on, s) && RowsAgree(used, s.lf, left, s.l, left') && RowsAgree(used, s.rf, right, s.r, right')
    ensures RowsAgree(used, s.lf + s.rf, JoinRows(w, kind, on, s.lf, s.rf, left, right),
                      s.l + s.r, JoinRows(w, kind, on, s.l, s.r, left', right'))
    decreases |left|
  {
    if left != [] {
      JoinAgrees(w, used, kind, on, s, left[1..], right, left'[1..], right');
      JoinRowAgrees(w, used, kind, on, s, left[0], left'[0], right, right');
      AgreeAppend(used, s.lf + s.rf, s.l + s.r,
                  JoinRow(w, kind, on, s.lf, s.rf, left[0], right), JoinRows(w, kind, on, s.lf, s.rf, left[1..], right),
                  JoinRow(w, kind, on, s.l, s.r, left'[0], right'), JoinRows(w, kind, on, s.l, s.r, left'[1..], right'));
    }
  }

  /** Sorting reads only key columns, so both sides move the same way. */
  ghost predicate SameOrder(used: set<string>, fs: seq<Field>, kept: seq<Field>, le: (Row, Row) -> bool, le': (Row, Row) -> bool)
  {
    forall a, b, a', b' :: RowAgrees(used, fs, a, kept, a') && RowAgrees(used, fs, b, kept, b') ==> le(a, b) == le'(a', b')
  }

  lemma KeysAgree(w: World, used: set<string>, keys: seq<SortKey>, fs: seq<Field>, kept: seq<Field>)
    requires forall i :: 0 <= i < |keys| ==> keys[i].name in used
    ensures SameOrder(used, fs, kept, KeyLe(w, fs, keys), KeyLe(w, kept, keys))
  {
    forall a, b, a', b' | RowAgrees(used, fs, a, kept, a') && RowAgrees(used, fs, b, kept, b')
      ensures KeyLe(w, fs, keys)(a, b) == KeyLe(w, kept, keys)(a', b')
    {
      assert KeyOf(fs, keys, a) == KeyOf(kept, keys, a');
      assert KeyOf(fs, keys, b) == KeyOf(kept, keys, b');
    }
  }

  lemma {:induction false} InsertAgrees(
    used: set<string>, fs: seq<Field>, kept: seq<Field>, s: seq<Row>, x: Row, s': seq<Row>, x': Row,
    le: (Row, Row) -> bool, le': (Row, Row) -> bool)
    requires SameOrder(used, fs, kept, le, le') && RowsAgree(used, fs, s, kept, s') && RowAgrees(used, fs, x, kept, x')
    ensures RowsAgree(used, fs, Sorting.Insert(s, x, le), kept, Sorting.Insert(s', x', le'))
    decreases |s|
  {
    if s == [] {
      AgreeCons(used, fs, kept, x, s, x', s');
    } else {
      assert RowAgrees(used, fs, s[0], kept, s'[0]);
      assert le(s[0], x) == le'(s'[0], x');
      if le(s[0], x) {
        InsertAgrees(used, fs, kept, s[1..], x, s'[1..], x', le, le');
        AgreeCons(used, fs, kept, s[0], Sorting.Insert(s[1..], x, le), s'[0], Sorting.Insert(s'[1..], x', le'));
      } else {
        AgreeCons(used, fs, kept, x, s, x', s');
      }
    }
  }

  lemma {:induction false} InsertAllAgrees(
    used: set<string>, fs: seq<Field>, kept: seq<Field>, s: seq<Row>, xs: seq<Row>, s': seq<Row>, xs': seq<Row>,
    le: (Row, Row) -> bool, le': (Row, Row) -> bool)
    requires SameOrder(used, fs, kept, le, le') && RowsAgree(used, fs, s, kept, s') && RowsAgree(used, fs, xs, kept, xs')
    ensures RowsAgree(used, fs, Sorting.InsertAll(s, xs, le), kept, Sorting.InsertAll(s', xs', le'))
    decreases |xs|
  {
    if xs != [] {
      InsertAgrees(used, fs, kept, s, xs[0], s', xs'[0], le, le');
      InsertAllAgrees(used, fs, kept, Sorting.Insert(s, xs[0], le), xs[1..], Sorting.Insert(s', xs'[0], le'), xs'[1..], le, le');
    }
  }

  // ── The pass ───────────────────────────────────────────────────────────────

  /** Pruned rows agree with the original ones on every used name, row by row; where the plan
      produces its own columns they are the same rows. */
  ghost predicate Kept(w: World, p: Plan, used: set<string>)
    requires Wf(p)
  {
    var q := PruneScans(p, used);
    && RowsAgree(used, Fields(p), Denote(w, p), Fields(q), Denote(w, q))
    && (OwnColumns(p) ==> Denote(w, q) == Denote(w, p))
  }

  lemma {:induction false} PruneAgrees(w: World, p: Plan, used: set<string>)
    requires Wf(p) && UnionsOwn(p) && UsedNames(p) <= used
    ensures Kept(w, p, used)
    decreases p
  {
    PruneWf(p, used);
    DenoteArity(w, p);
    match p {
      case Scan(table, fs) => ScanAgrees(w.tables(table), fs, ScanFields(fs, used), used);
      case Values(_, _) =>
      case Filter(input, pred) =>
        PruneAgrees(w, input, used);
        PruneWf(input, used);
        var q := PruneScans(input, used);
        SelectAgrees(w, pred, used, Fields(input), Denote(w, input), Fields(q), Denote(w, q));
      case Project(input, exprs, _) =>
        PruneAgrees(w, input, used);
        var q := PruneScans(input, used);
        EvalRowsAgree(w, exprs, used, Fields(input), Denote(w, input), Fields(q), Denote(w, q));
      case Aggregate(input, exprs, _, _) =>
        PruneAgrees(w, input, used);
        var q := PruneScans(input, used);
        EvalRowsAgree(w, exprs, used, Fields(input), Denote(w, input), Fields(q), Denote(w, q));
      case Join(_, _, _, _, _) => PruneJoinAgrees(w, p, used);
      case Sort(_, _) => PruneSortAgrees(w, p, used);
      case Limit(input, _, _) => PruneAgrees(w, input, used);
      case UnionAll(branches, _) => PruneUnionAgrees(w, p, used);
    }
  }

  lemma {:induction false} PruneJoinAgrees(w: World, p: Plan, used: set<string>)
    requires p.Join? && Wf(p) && UnionsOwn(p) && UsedNames(p) <= used
    ensures Kept(w, p, used)
    decreases p, 0
  {
    var l, r := PruneScans(p.left, used), PruneScans(p.right, used);
    PruneWf(p.left, used);
    PruneWf(p.right, used);
    PruneAgrees(w, p.left, used);
    PruneAgrees(w, p.right, used);
    JoinAgrees(w, used, p.kind, p.on, Sides(Fields(p.left), Fields(p.right), Fields(l), Fields(r)),
               Denote(w, p.left), Denote(w, p.right), Denote(w, l), Denote(w, r));
  }

  lemma {:induction false} PruneSortAgrees(w: World, p: Plan, used: set<string>)
    requires p.Sort? && Wf(p) && UnionsOwn(p) && UsedNames(p) <= used
    ensures Kept(w, p, used)
    decreases p, 0
  {
    var q := PruneScans(p.input, used);
    PruneWf(p.input, used);
    PruneAgrees(w, p.input, used);
    KeysAgree(w, used, p.keys, Fields(p.input), Fields(q));
    InsertAllAgrees(used, Fields(p.input), Fields(q), [], Denote(w, p.input), [], Denote(w, q),
                    KeyLe(w, Fields(p.input), p.keys), KeyLe(w, Fields(q), p.keys));
  }

  lemma {:induction false} PruneUnionAgrees(w: World, p: Plan, used: set<string>)
    requires p.UnionAll? && Wf(p) && UnionsOwn(p) && UsedNames(p) <= used
    ensures Kept(w, p, used)
    decreases p, 0
  {
    var branches := p.branches;
    var pruned := PruneScans(p, used).branches;
    forall i | 0 <= i < |branches| ensures Denote(w, pruned[i]) == Denote(w, branches[i]) {
      PruneAgrees(w, branches[i], used);
    }
    assert seq(|pruned|, i requires 0 <= i < |pruned| => Denote(w, pruned[i]))
        == seq(|branches|, i requires 0 <= i < |branches| => Denote(w, branches[i]));
    DenoteArity(w, p);
  }

  /** The planner's rule 1: after pruning every name still resolves, and a query that projects or
      aggregates has the same rows — also when no column of a table is used at all. */
  lemma PruningPreservesMeaning(w: World, p: Plan)
    requires Wf(p) && UnionsOwn(p) && OwnColumns(p)
    ensures var q := PruneScans(p, UsedNames(p)); Wf(q) && Fields(q) == Fields(p) && Denote(w, q) == Denote(w, p)
  {
    PruneWf(p, UsedNames(p));
    PruneAgrees(w, p, UsedNames(p));
  }

  /** Row counts survive at every node, whatever it outputs. */
  lemma PruningKeepsRowCounts(w: World, p: Plan, used: set<string>)
    requires Wf(p) && UnionsOwn(p) && UsedNames(p) <= used
    ensures |Denote(w, PruneScans(p, used))| == |Denote(w, p)|
  {
    PruneAgrees(w, p, used);
  }

  // ── What is pruned ─────────────────────────────────────────────────────────

  /** Every scan reads used columns only, or one column. */
  predicate ReadsUsed(p: Plan, used: set<string>)
    decreases p
  {
    match p
    case Scan(_, fs) => |fs| == 1 || forall f :: f in fs ==> f.name in used
    case Values(_, _) => true
    case Filter(input, _) => ReadsUsed(input, used)
    case Project(input, _, _) => ReadsUsed(input, used)
    case Aggregate(input, _, _, _) => ReadsUsed(input, used)
    case Join(left, right, _, _, _) => ReadsUsed(left, used) && ReadsUsed(right, used)
    case Sort(input, _) => ReadsUsed(input, used)
    case Limit(input, _, _) => ReadsUsed(input, used)
    case UnionAll(branches, _) => forall i :: 0 <= i < |branches| ==> ReadsUsed(branches[i], used)
  }

  /** The pass does prune: no scan is left reading a column nothing uses, but for the one it must. */
  lemma {:induction false} PruningPrunes(p: Plan, used: set<string>)
    requires Wf(p)
    ensures ReadsUsed(PruneScans(p, used), used)
    decreases p
  {
    match p {
      case Scan(_, _) =>
      case Values(_, _) =>
      case Filter(input, _) => PruningPrunes(input, used);
      case Project(input, _, _) => PruningPrunes(input, used);
      case Aggregate(input, _, _, _) => PruningPrunes(input, used);
      case Join(left, right, _, _, _) => PruningPrunes(left, used); PruningPrunes(right, used);
      case Sort(input, _) => PruningPrunes(input, used);
      case Limit(input, _, _) => PruningPrunes(input, used);
      case UnionAll(branches, _) =>
        forall i | 0 <= i < |branches| ensures ReadsUsed(PruneScans(branches[i], used), used) { PruningPrunes(branches[i], used); }
    }
  }

  /** And what counts as used is only what an expression, a join key or a sort key names. */
  predicate NamedIn(p: Plan, n: string)
    decreases p
  {
    match p
    case Scan(_, _) => false
    case Values(_, _) => false
    case Filter(input, pred) => n in Cols(pred) || NamedIn(input, n)
    case Project(input, exprs, _) => (exists i :: 0 <= i < |exprs| && n in Cols(exprs[i])) || NamedIn(input, n)
    case Aggregate(input, exprs, _, _) => (exists i :: 0 <= i < |exprs| && n in Cols(exprs[i])) || NamedIn(input, n)
    case Join(left, right, _, on, _) =>
      (exists i :: 0 <= i < |on| && (n == on[i].0 || n == on[i].1)) || NamedIn(left, n) || NamedIn(right, n)
    case Sort(input, keys) => (exists i :: 0 <= i < |keys| && keys[i].name == n) || NamedIn(input, n)
    case Limit(input, _, _) => NamedIn(input, n)
    case UnionAll(branches, _) => exists i :: 0 <= i < |branches| && NamedIn(branches[i], n)
  }

  lemma {:induction false} UsedIsNamed(p: Plan, n: string)
    ensures n in UsedNames(p) <==> NamedIn(p, n)
    decreases p
  {
    match p {
      case Scan(_, _) =>
      case Values(_, _) =>
      case Filter(input, _) => UsedIsNamed(input, n);
      case Project(input, _, _) => UsedIsNamed(input, n);
      case Aggregate(input, _, _, _) => UsedIsNamed(input, n);
      case Join(left, right, _, _, _) => UsedIsNamed(left, n); UsedIsNamed(right, n);
      case Sort(input, _) => UsedIsNamed(input, n);
      case Limit(input, _, _) => UsedIsNamed(input, n);
      case UnionAll(branches, _) =>
        forall i | 0 <= i < |branches| ensures n in UsedNames(branches[i]) <==> NamedIn(branches[i], n) { UsedIsNamed(branches[i], n); }
    }
  }
}
