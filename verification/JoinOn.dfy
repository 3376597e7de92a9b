/** Binding JOIN ... ON (src/sql/binder.rs): the condition is split into key equalities, filters on
    either input and a residual; the split plan denotes the join on the whole condition. */
module JoinOn {
  import opened Options
  import opened Seqs
  import opened Relational
  import opened Pushdown

  datatype BindError = NoEquality | LeftUnsupported
  datatype Bound = Ok(plan: Plan) | Err(error: BindError)

  function AsEquiPair(e: BExpr): Option<(string, string)>
  {
    if e.Cmp? && e.op == Eq && e.l.Column? && e.r.Column? then Some((e.l.name, e.r.name)) else None
  }

  // ── The join on the whole condition ────────────────────────────────────────

  ghost function OnMatches(w: World, cs: seq<BExpr>, lf: seq<Field>, rf: seq<Field>, l: Row, rows: seq<Row>): seq<Row>
  {
    if rows == [] then []
    else (if AllHold(w, cs, lf + rf, l + rows[0]) then [l + rows[0]] else []) + OnMatches(w, cs, lf, rf, l, rows[1..])
  }

  ghost function OnJoinRow(
    w: World, kind: JoinKind, cs: seq<BExpr>, lf: seq<Field>, rf: seq<Field>, l: Row, rows: seq<Row>): seq<Row>
  {
    var ms := OnMatches(w, cs, lf, rf, l, rows);
    if kind == Left && ms == [] then [l + Nulls(|rf|)] else ms
  }

  /** Every pair of rows on which all conjuncts of ON are true; LEFT keeps the rest null-extended. */
  ghost function OnJoin(
    w: World, kind: JoinKind, cs: seq<BExpr>, lf: seq<Field>, rf: seq<Field>, left: seq<Row>, right: seq<Row>): seq<Row>
    decreases |left|
  {
    if left == [] then []
    else OnJoinRow(w, kind, cs, lf, rf, left[0], right) + OnJoin(w, kind, cs, lf, rf, left[1..], right)
  }

  // ── What the four lists mean together ──────────────────────────────────────

  datatype Parts = Parts(on: seq<(string, string)>, left: seq<BExpr>, right: seq<BExpr>, residual: seq<BExpr>)

  ghost predicate PairSplits(w: World, cs: seq<BExpr>, s: Parts, lf: seq<Field>, rf: seq<Field>, l: Row, r: Row)
  {
    AllHold(w, cs, lf + rf, l + r) <==>
      && Matched(w, s.on, lf, rf, l, r) && AllHold(w, s.left, lf, l) && AllHold(w, s.right, rf, r)
      && AllHold(w, s.residual, lf + rf, l + r)
  }

  /** On every pair of rows the parts hold exactly when the conjuncts do. */
  ghost predicate Splits(w: World, cs: seq<BExpr>, s: Parts, lf: seq<Field>, rf: seq<Field>)
  {
    forall l: Row, r: Row :: |l| == |lf| && |r| == |rf| ==> PairSplits(w, cs, s, lf, rf, l, r)
  }

  ghost predicate PartsRead(s: Parts, lf: seq<Field>, rf: seq<Field>)
  {
    && ReadAll(s.left, lf) && ReadAll(s.right, rf) && ReadAll(s.residual, lf + rf)
    && forall i :: 0 <= i < |s.on| ==> s.on[i].0 in Names(lf) && s.on[i].1 in Names(rf)
  }

  lemma AllHoldPush(w: World, cs: seq<BExpr>, c: BExpr, fs: seq<Field>, row: Row)
    ensures AllHold(w, cs + [c], fs, row) <==> AllHold(w, cs, fs, row) && Holds(w, c, fs, row)
  {
    if AllHold(w, cs + [c], fs, row) {
      forall i | 0 <= i < |cs| ensures Holds(w, cs[i], fs, row) { assert (cs + [c])[i] == cs[i]; }
      assert (cs + [c])[|cs|] == c;
    }
  }

  /** One conjunct goes to the list its columns decide. */
  function Place(s: Parts, c: BExpr, lp: set<string>, rp: set<string>): Parts
  {
    var used := PrefixesOf(Cols(c));
    var touchesLeft, touchesRight := used * lp != {}, used * rp != {};
    if touchesLeft && !touchesRight then s.(left := s.left + [c])
    else if !touchesLeft && touchesRight then s.(right := s.right + [c])
    else
      var pair := AsEquiPair(c);
      if pair.Some? then
        var (a, b) := pair.value;
        s.(on := s.on + [if PrefixOf(a) in lp then (a, b) else (b, a)])
      else s.(residual := s.residual + [c])
  }

  lemma ColumnSide(n: string, lf: seq<Field>, rf: seq<Field>)
    requires n in Names(lf + rf) && PrefixesOf(Names(lf)) !! PrefixesOf(Names(rf))
    ensures n in Names(lf) <==> PrefixOf(n) in PrefixesOf(Names(lf))
    ensures n in Names(rf) <==> PrefixOf(n) in PrefixesOf(Names(rf))
    ensures n in Names(lf) <==> n !in Names(rf)
  {
    NamesConcat(lf, rf);
    assert n in Names(lf) ==> PrefixOf(n) in PrefixesOf(Names(lf));
    assert n in Names(rf) ==> PrefixOf(n) in PrefixesOf(Names(rf));
  }

  /** A conjunct that does not touch one side reads only the other. */
  lemma OneSided(c: BExpr, side: seq<Field>, other: seq<Field>, fs: seq<Field>)
    requires Reads(c, fs) && Names(fs) == Names(side) + Names(other)
    requires PrefixesOf(Cols(c)) * PrefixesOf(Names(other)) == {}
    ensures Reads(c, side)
  {
    forall n | n in Cols(c) ensures n in Names(side) {
      assert PrefixOf(n) in PrefixesOf(Cols(c));
      assert n in Names(other) ==> PrefixOf(n) in PrefixesOf(Cols(c)) * PrefixesOf(Names(other));
    }
  }

  ghost predicate Sides(lf: seq<Field>, rf: seq<Field>)
  {
    PrefixesOf(Names(lf)) !! PrefixesOf(Names(rf))
  }

  lemma PlaceReads(s: Parts, c: BExpr, lf: seq<Field>, rf: seq<Field>)
    requires Sides(lf, rf) && PartsRead(s, lf, rf) && Reads(c, lf + rf)
    ensures PartsRead(Place(s, c, PrefixesOf(Names(lf)), PrefixesOf(Names(rf))), lf, rf)
  {
    NamesConcat(lf, rf);
    var lp, rp := PrefixesOf(Names(lf)), PrefixesOf(Names(rf));
    var used := PrefixesOf(Cols(c));
    if used * lp != {} && used * rp == {} {
      OneSided(c, lf, rf, lf + rf);
    } else if used * lp == {} && used * rp != {} {
      OneSided(c, rf, lf, lf + rf);
    } else if AsEquiPair(c).Some? {
      EquiSides(c, lf, rf);
    }
  }

  /** A key equality that is not one-sided has one column on each side. */
  lemma EquiSides(c: BExpr, lf: seq<Field>, rf: seq<Field>)
    requires Sides(lf, rf) && Reads(c, lf + rf) && AsEquiPair(c).Some?
    requires var used := PrefixesOf(Cols(c));
             (used * PrefixesOf(Names(lf)) != {}) == (used * PrefixesOf(Names(rf)) != {})
    ensures var (a, b) := AsEquiPair(c).value;
            if PrefixOf(a) in PrefixesOf(Names(lf)) then a in Names(lf) && b in Names(rf) else b in Names(lf) && a in Names(rf)
  {
    var (a, b) := AsEquiPair(c).value;
    assert Cols(c) == {a, b};
    ColumnSide(a, lf, rf);
    ColumnSide(b, lf, rf);
    var used, lp, rp := PrefixesOf(Cols(c)), PrefixesOf(Names(lf)), PrefixesOf(Names(rf));
    assert used == {PrefixOf(a), PrefixOf(b)};
    NamesConcat(lf, rf);
    assert PrefixOf(a) in used * lp || PrefixOf(a) in used * rp;
    var x, y :| x in used * lp && y in used * rp;
  }

  lemma MatchedPush(w: World, on: seq<(string, string)>, pair: (string, string), lf: seq<Field>, rf: seq<Field>, l: Row, r: Row)
    ensures Matched(w, on + [pair], lf, rf, l, r) <==> Matched(w, on, lf, rf, l, r) && Matched(w, [pair], lf, rf, l, r)
  {
    var next := on + [pair];
    if Matched(w, next, lf, rf, l, r) {
      forall i | 0 <= i < |on|
        ensures var a, b := Lookup(lf, l, on[i].0), Lookup(rf, r, on[i].1); !a.Null? && !b.Null? && w.cmp(Eq, a, b)
      {
        assert next[i] == on[i];
      }
      assert next[|on|] == pair;
    }
    if Matched(w, on, lf, rf, l, r) && Matched(w, [pair], lf, rf, l, r) {
      assert [pair][0] == pair;
    }
  }

  lemma EquiHolds(w: World, c: BExpr, pair: (string, string), lf: seq<Field>, rf: seq<Field>, l: Row, r: Row)
    requires EqIsSymmetric(w) && Sides(lf, rf) && |l| == |lf| && |r| == |rf|
    requires AsEquiPair(c) == Some(pair) || AsEquiPair(c) == Some((pair.1, pair.0))
    requires pair.0 in Names(lf) && pair.1 in Names(rf)
    ensures Matched(w, [pair], lf, rf, l, r) <==> Holds(w, c, lf + rf, l + r)
  {
    NamesConcat(lf, rf);
    ColumnSide(pair.0, lf, rf);
    ColumnSide(pair.1, lf, rf);
    LookupJoined(lf, rf, l, r, pair.0);
    LookupJoined(lf, rf, l, r, pair.1);
    var a, b := Lookup(lf, l, pair.0), Lookup(rf, r, pair.1);
    var one := [pair];
    assert one[0] == pair;
    assert Matched(w, one, lf, rf, l, r) <==> !a.Null? && !b.Null? && w.cmp(Eq, a, b);
    assert Eval(w, Column(pair.0), lf + rf, l + r) == a && Eval(w, Column(pair.1), lf + rf, l + r) == b;
  }

  lemma PlaceSplits(w: World, cs: seq<BExpr>, c: BExpr, s: Parts, lf: seq<Field>, rf: seq<Field>, l: Row, r: Row)
    requires EqIsSymmetric(w) && Sides(lf, rf) && Reads(c, lf + rf) && |l| == |lf| && |r| == |rf|
    requires PairSplits(w, cs, s, lf, rf, l, r)
    ensures PairSplits(w, cs + [c], Place(s, c, PrefixesOf(Names(lf)), PrefixesOf(Names(rf))), lf, rf, l, r)
  {
    NamesConcat(lf, rf);
    var lp, rp := PrefixesOf(Names(lf)), PrefixesOf(Names(rf));
    var used := PrefixesOf(Cols(c));
    AllHoldPush(w, cs, c, lf + rf, l + r);
    if used * lp != {} && used * rp == {} {
      OneSided(c, lf, rf, lf + rf);
      HoldsOnLeft(w, c, lf, rf, l, r);
      AllHoldPush(w, s.left, c, lf, l);
    } else if used * lp == {} && used * rp != {} {
      OneSided(c, rf, lf, lf + rf);
      assert PrefixesOf(Cols(c)) <= PrefixesOf(Names(rf));
      HoldsOnRight(w, c, lf, rf, l, r);
      AllHoldPush(w, s.right, c, rf, r);
    } else if AsEquiPair(c).Some? {
      EquiSides(c, lf, rf);
      var (a, b) := AsEquiPair(c).value;
      var pair := if PrefixOf(a) in lp then (a, b) else (b, a);
      EquiHolds(w, c, pair, lf, rf, l, r);
      MatchedPush(w, s.on, pair, lf, rf, l, r);
    } else {
      AllHoldPush(w, s.residual, c, lf + rf, l + r);
    }
  }

  // ── Where every conjunct goes, by the columns it reads ─────────────────────

  /** An equality of a column of one side with a column of the other. */
  predicate KeyEquality(c: BExpr, lf: seq<Field>, rf: seq<Field>)
  {
    && c.Cmp? && c.op == Eq && c.l.Column? && c.r.Column?
    && ((c.l.name in Names(lf) && c.r.name in Names(rf)) || (c.l.name in Names(rf) && c.r.name in Names(lf)))
  }

  /** It reads columns, and all of them are of this side. */
  predicate ReadsOnly(c: BExpr, side: seq<Field>)
  {
    Cols(c) != {} && Cols(c) <= Names(side)
  }

  predicate Elsewhere(c: BExpr, lf: seq<Field>, rf: seq<Field>)
  {
    !KeyEquality(c, lf, rf) && !ReadsOnly(c, lf) && !ReadsOnly(c, rf)
  }

  function Those(cs: seq<BExpr>, p: BExpr -> bool): seq<BExpr>
  {
    if cs == [] then []
    else Those(cs[..|cs| - 1], p) + if p(cs[|cs| - 1]) then [cs[|cs| - 1]] else []
  }

  /** The key equalities, left column first. */
  function Keys(cs: seq<BExpr>, lf: seq<Field>, rf: seq<Field>): seq<(string, string)>
  {
    if cs == [] then []
    else
      var c := cs[|cs| - 1];
      Keys(cs[..|cs| - 1], lf, rf) +
      if KeyEquality(c, lf, rf) then [if c.l.name in Names(lf) then (c.l.name, c.r.name) else (c.r.name, c.l.name)] else []
  }

  /** The four lists, in the order of the condition. */
  function Sorted(cs: seq<BExpr>, lf: seq<Field>, rf: seq<Field>): Parts
  {
    Parts(Keys(cs, lf, rf), Those(cs, c => ReadsOnly(c, lf)), Those(cs, c => ReadsOnly(c, rf)), Those(cs, c => Elsewhere(c, lf, rf)))
  }

  /** A conjunct touches a side's prefixes exactly when it reads a column of it. */
  lemma {:induction false} Touches(c: BExpr, lf: seq<Field>, rf: seq<Field>)
    requires Sides(lf, rf) && Reads(c, lf + rf)
    ensures PrefixesOf(Cols(c)) * PrefixesOf(Names(lf)) != {} <==> exists n :: n in Cols(c) && n in Names(lf)
    ensures PrefixesOf(Cols(c)) * PrefixesOf(Names(rf)) != {} <==> exists n :: n in Cols(c) && n in Names(rf)
  {
    var used, lp, rp := PrefixesOf(Cols(c)), PrefixesOf(Names(lf)), PrefixesOf(Names(rf));
    forall n | n in Cols(c)
      ensures PrefixOf(n) in used && (n in Names(lf) <==> PrefixOf(n) in lp) && (n in Names(rf) <==> PrefixOf(n) in rp)
    {
      ColumnSide(n, lf, rf);
    }
    if exists n :: n in Cols(c) && n in Names(lf) {
      var n :| n in Cols(c) && n in Names(lf);
      assert PrefixOf(n) in used * lp;
    }
    if exists n :: n in Cols(c) && n in Names(rf) {
      var n :| n in Cols(c) && n in Names(rf);
      assert PrefixOf(n) in used * rp;
    }
  }

  lemma {:induction false} OnlyIffTouches(c: BExpr, lf: seq<Field>, rf: seq<Field>)
    requires Sides(lf, rf) && Reads(c, lf + rf)
    ensures var used, lp, rp := PrefixesOf(Cols(c)), PrefixesOf(Names(lf)), PrefixesOf(Names(rf));
            && (ReadsOnly(c, lf) <==> used * lp != {} && used * rp == {})
            && (ReadsOnly(c, rf) <==> used * lp == {} && used * rp != {})
  {
    Touches(c, lf, rf);
    NamesConcat(lf, rf);
    forall n | n in Cols(c) ensures (n in Names(lf)) == (n !in Names(rf)) { ColumnSide(n, lf, rf); }
  }

  /** The source's branches by prefixes are these classes. */
  lemma {:induction false} PlaceIs(s: Parts, c: BExpr, lf: seq<Field>, rf: seq<Field>)
    requires Sides(lf, rf) && Reads(c, lf + rf)
    ensures Place(s, c, PrefixesOf(Names(lf)), PrefixesOf(Names(rf))) ==
              if ReadsOnly(c, lf) then s.(left := s.left + [c])
              else if ReadsOnly(c, rf) then s.(right := s.right + [c])
              else if KeyEquality(c, lf, rf) then
                s.(on := s.on + [if c.l.name in Names(lf) then (c.l.name, c.r.name) else (c.r.name, c.l.name)])
              else s.(residual := s.residual + [c])
  {
    OnlyIffTouches(c, lf, rf);
    if AsEquiPair(c).Some? {
      assert Cols(c) == {c.l.name, c.r.name};
      ColumnSide(c.l.name, lf, rf);
      ColumnSide(c.r.name, lf, rf);
      if !ReadsOnly(c, lf) && !ReadsOnly(c, rf) { EquiSides(c, lf, rf); }
    }
  }

  /** A key equality reads both sides. */
  lemma {:induction false} KeyReadsBoth(c: BExpr, lf: seq<Field>, rf: seq<Field>)
    requires Sides(lf, rf) && Reads(c, lf + rf) && KeyEquality(c, lf, rf)
    ensures !ReadsOnly(c, lf) && !ReadsOnly(c, rf)
  {
    assert Cols(c) == {c.l.name, c.r.name};
    ColumnSide(c.l.name, lf, rf);
    ColumnSide(c.r.name, lf, rf);
  }

  lemma {:induction false} NotBothSides(c: BExpr, lf: seq<Field>, rf: seq<Field>)
    requires Sides(lf, rf) && Reads(c, lf + rf) && ReadsOnly(c, lf)
    ensures !ReadsOnly(c, rf)
  {
    var n :| n in Cols(c);
    ColumnSide(n, lf, rf);
  }

  lemma {:induction false} SortedPush(cs: seq<BExpr>, c: BExpr, lf: seq<Field>, rf: seq<Field>)
    requires Sides(lf, rf) && Reads(c, lf + rf)
    ensures Sorted(cs + [c], lf, rf) == Place(Sorted(cs, lf, rf), c, PrefixesOf(Names(lf)), PrefixesOf(Names(rf)))
  {
    assert (cs + [c])[..|cs|] == cs && (cs + [c])[|cs|] == c;
    PlaceIs(Sorted(cs, lf, rf), c, lf, rf);
    if KeyEquality(c, lf, rf) { KeyReadsBoth(c, lf, rf); }
    if ReadsOnly(c, lf) { NotBothSides(c, lf, rf); }
  }

  lemma {:induction false} ThoseEmpty(cs: seq<BExpr>, p: BExpr -> bool)
    ensures Those(cs, p) == [] <==> forall c :: c in cs ==> !p(c)
  {
    if cs != [] {
      ThoseEmpty(cs[..|cs| - 1], p);
      assert cs == cs[..|cs| - 1] + [cs[|cs| - 1]];
    }
  }

  lemma {:induction false} KeysEmpty(cs: seq<BExpr>, lf: seq<Field>, rf: seq<Field>)
    ensures Keys(cs, lf, rf) == [] <==> forall c :: c in cs ==> !KeyEquality(c, lf, rf)
  {
    if cs != [] {
      KeysEmpty(cs[..|cs| - 1], lf, rf);
      assert cs == cs[..|cs| - 1] + [cs[|cs| - 1]];
    }
  }

  /** Whether the lists that LEFT refuses are empty. */
  lemma {:induction false} RefusedLists(cs: seq<BExpr>, lf: seq<Field>, rf: seq<Field>)
    requires Sides(lf, rf) && ReadAll(cs, lf + rf)
    ensures Sorted(cs, lf, rf).left != [] || Sorted(cs, lf, rf).residual != [] <==>
              exists c :: c in cs && !KeyEquality(c, lf, rf) && !ReadsOnly(c, rf)
  {
    ThoseEmpty(cs, c => ReadsOnly(c, lf));
    ThoseEmpty(cs, c => Elsewhere(c, lf, rf));
    forall c | c in cs && ReadsOnly(c, lf) ensures !KeyEquality(c, lf, rf) && !ReadsOnly(c, rf) {
      var i :| 0 <= i < |cs| && cs[i] == c;
      NotBothSides(c, lf, rf);
      if KeyEquality(c, lf, rf) { KeyReadsBoth(c, lf, rf); }
    }
  }

  // ── The split plan joins as the whole condition does ───────────────────────

  lemma AndOfHolds(w: World, cs: seq<BExpr>, fs: seq<Field>, row: Row)
    requires cs != []
    ensures Holds(w, AndOf(cs), fs, row) <==> AllHold(w, cs, fs, row)
  {
    if |cs| > 1 {
      var vs := seq(|cs|, i requires 0 <= i < |cs| => Eval(w, cs[i], fs, row));
      assert forall i :: 0 <= i < |cs| ==> vs[i] == Eval(w, cs[i], fs, row);
    }
  }

  /** Filtering by a possibly empty list of conjuncts. */
  function FilterBy(p: Plan, cs: seq<BExpr>): Plan
  {
    if cs == [] then p else Filter(p, AndOf(cs))
  }

  ghost function Keep(w: World, cs: seq<BExpr>, fs: seq<Field>, rows: seq<Row>): seq<Row>
  {
    if rows == [] then []
    else (if AllHold(w, cs, fs, rows[0]) then [rows[0]] else []) + Keep(w, cs, fs, rows[1..])
  }

  lemma {:induction false} KeepAll(w: World, fs: seq<Field>, rows: seq<Row>)
    ensures Keep(w, [], fs, rows) == rows
  {
    if rows != [] { KeepAll(w, fs, rows[1..]); }
  }

  lemma {:induction false} KeepSelect(w: World, cs: seq<BExpr>, fs: seq<Field>, rows: seq<Row>)
    requires cs != []
    ensures Keep(w, cs, fs, rows) == Select(w, AndOf(cs), fs, rows)
  {
    if rows != [] {
      AndOfHolds(w, cs, fs, rows[0]);
      KeepSelect(w, cs, fs, rows[1..]);
    }
  }

  lemma FilterByMeaning(w: World, p: Plan, cs: seq<BExpr>)
    ensures Fields(FilterBy(p, cs)) == Fields(p)
    ensures Denote(w, FilterBy(p, cs)) == Keep(w, cs, Fields(p), Denote(w, p))
  {
    if cs == [] { KeepAll(w, Fields(p), Denote(w, p)); } else { KeepSelect(w, cs, Fields(p), Denote(w, p)); }
  }

  lemma {:induction false} KeepAppend(w: World, cs: seq<BExpr>, fs: seq<Field>, a: seq<Row>, b: seq<Row>)
    ensures Keep(w, cs, fs, a + b) == Keep(w, cs, fs, a) + Keep(w, cs, fs, b)
  {
    if a == [] {
      assert a + b == b;
    } else {
      var first := if AllHold(w, cs, fs, a[0]) then [a[0]] else [];
      assert (a + b)[0] == a[0] && (a + b)[1..] == a[1..] + b;
      KeepAppend(w, cs, fs, a[1..], b);
      Assoc(first, Keep(w, cs, fs, a[1..]), Keep(w, cs, fs, b));
    }
  }

  lemma KeepOne(w: World, cs: seq<BExpr>, fs: seq<Field>, row: Row)
    ensures Keep(w, cs, fs, [row]) == if AllHold(w, cs, fs, row) then [row] else []
  {
    assert [row][1..] == [];
  }

  lemma MatchesHead(w: World, on: seq<(string, string)>, lf: seq<Field>, rf: seq<Field>, l: Row, r: Row, rest: seq<Row>)
    ensures Matches(w, on, lf, rf, l, [r] + rest) ==
            (if Matched(w, on, lf, rf, l, r) then [l + r] else []) + Matches(w, on, lf, rf, l, rest)
  {
    assert ([r] + rest)[1..] == rest;
  }

  /** One left row that passes the left filter finds exactly its ON matches. */
  lemma {:induction false} SplitMatches(
    w: World, cs: seq<BExpr>, s: Parts, lf: seq<Field>, rf: seq<Field>, l: Row, rows: seq<Row>)
    requires Splits(w, cs, s, lf, rf) && |l| == |lf| && Arity(rows, |rf|) && AllHold(w, s.left, lf, l)
    ensures Keep(w, s.residual, lf + rf, Matches(w, s.on, lf, rf, l, Keep(w, s.right, rf, rows))) ==
            OnMatches(w, cs, lf, rf, l, rows)
  {
    if rows != [] {
      var r, rest := rows[0], rows[1..];
      SplitMatches(w, cs, s, lf, rf, l, rest);
      assert PairSplits(w, cs, s, lf, rf, l, r);
      var kept := Keep(w, s.right, rf, rest);
      var ms := Matches(w, s.on, lf, rf, l, kept);
      if AllHold(w, s.right, rf, r) {
        MatchesHead(w, s.on, lf, rf, l, r, kept);
        if Matched(w, s.on, lf, rf, l, r) {
          KeepAppend(w, s.residual, lf + rf, [l + r], ms);
          KeepOne(w, s.residual, lf + rf, l + r);
        } else {
          assert [] + ms == ms;
        }
      } else {
        assert [] + kept == kept;
      }
    }
  }

  lemma {:induction false} RejectedLeftRow(
    w: World, cs: seq<BExpr>, s: Parts, lf: seq<Field>, rf: seq<Field>, l: Row, rows: seq<Row>)
    requires Splits(w, cs, s, lf, rf) && |l| == |lf| && Arity(rows, |rf|) && !AllHold(w, s.left, lf, l)
    ensures OnMatches(w, cs, lf, rf, l, rows) == []
  {
    if rows != [] {
      assert PairSplits(w, cs, s, lf, rf, l, rows[0]);
      RejectedLeftRow(w, cs, s, lf, rf, l, rows[1..]);
    }
  }

  lemma {:induction false} InnerSplit(
    w: World, cs: seq<BExpr>, s: Parts, lf: seq<Field>, rf: seq<Field>, left: seq<Row>, right: seq<Row>)
    requires Splits(w, cs, s, lf, rf) && Arity(left, |lf|) && Arity(right, |rf|)
    ensures Keep(w, s.residual, lf + rf,
                 JoinRows(w, Inner, s.on, lf, rf, Keep(w, s.left, lf, left), Keep(w, s.right, rf, right))) ==
            OnJoin(w, Inner, cs, lf, rf, left, right)
    decreases |left|
  {
    if left != [] {
      var l, rest := left[0], left[1..];
      InnerSplit(w, cs, s, lf, rf, rest, right);
      var kept, good := Keep(w, s.left, lf, rest), Keep(w, s.right, rf, right);
      if AllHold(w, s.left, lf, l) {
        assert ([l] + kept)[1..] == kept;
        KeepAppend(w, s.residual, lf + rf, Matches(w, s.on, lf, rf, l, good), JoinRows(w, Inner, s.on, lf, rf, kept, good));
        SplitMatches(w, cs, s, lf, rf, l, right);
      } else {
        assert [] + kept == kept;
        RejectedLeftRow(w, cs, s, lf, rf, l, right);
      }
    }
  }

  lemma {:induction false} LeftSplit(
    w: World, cs: seq<BExpr>, s: Parts, lf: seq<Field>, rf: seq<Field>, left: seq<Row>, right: seq<Row>)
    requires Splits(w, cs, s, lf, rf) && Arity(left, |lf|) && Arity(right, |rf|) && s.left == [] && s.residual == []
    ensures JoinRows(w, Left, s.on, lf, rf, left, Keep(w, s.right, rf, right)) == OnJoin(w, Left, cs, lf, rf, left, right)
    decreases |left|
  {
    if left != [] {
      LeftSplit(w, cs, s, lf, rf, left[1..], right);
      SplitMatches(w, cs, s, lf, rf, left[0], right);
      KeepAll(w, lf + rf, Matches(w, s.on, lf, rf, left[0], Keep(w, s.right, rf, right)));
    }
  }

  // ── `bind_from_item` for one JOIN ──────────────────────────────────────────

  ghost predicate SplitsEverywhere(cs: seq<BExpr>, s: Parts, lf: seq<Field>, rf: seq<Field>)
  {
    forall w: World :: EqIsSymmetric(w) ==> Splits(w, cs, s, lf, rf)
  }

  lemma PlaceSplitsEverywhere(cs: seq<BExpr>, c: BExpr, s: Parts, lf: seq<Field>, rf: seq<Field>)
    requires Sides(lf, rf) && Reads(c, lf + rf) && SplitsEverywhere(cs, s, lf, rf)
    ensures SplitsEverywhere(cs + [c], Place(s, c, PrefixesOf(Names(lf)), PrefixesOf(Names(rf))), lf, rf)
  {
    var next := Place(s, c, PrefixesOf(Names(lf)), PrefixesOf(Names(rf)));
    forall w: World | EqIsSymmetric(w) ensures Splits(w, cs + [c], next, lf, rf) {
      assert Splits(w, cs, s, lf, rf);
      forall l: Row, r: Row | |l| == |lf| && |r| == |rf| ensures PairSplits(w, cs + [c], next, lf, rf, l, r) {
        PlaceSplits(w, cs, c, s, lf, rf, l, r);
      }
    }
  }

  /** The plan `bind_from_item` builds from the four lists. */
  function SplitPlan(left: Plan, right: Plan, kind: JoinKind, s: Parts): Plan
  {
    var l, r := FilterBy(left, s.left), FilterBy(right, s.right);
    FilterBy(Join(l, r, kind, s.on, Fields(l) + Fields(r)), s.residual)
  }

  lemma SplitPlanRows(w: World, left: Plan, right: Plan, kind: JoinKind, s: Parts)
    ensures var lf, rf := Fields(left), Fields(right);
            Denote(w, SplitPlan(left, right, kind, s)) ==
            Keep(w, s.residual, lf + rf,
                 JoinRows(w, kind, s.on, lf, rf, Keep(w, s.left, lf, Denote(w, left)), Keep(w, s.right, rf, Denote(w, right))))
  {
    var l, r := FilterBy(left, s.left), FilterBy(right, s.right);
    FilterByMeaning(w, left, s.left);
    FilterByMeaning(w, right, s.right);
    FilterByMeaning(w, Join(l, r, kind, s.on, Fields(l) + Fields(r)), s.residual);
  }

  lemma SplitPlanMeaning(w: World, left: Plan, right: Plan, kind: JoinKind, cs: seq<BExpr>, s: Parts)
    requires Wf(left) && Wf(right) && Splits(w, cs, s, Fields(left), Fields(right))
    requires kind == Left ==> s.left == [] && s.residual == []
    ensures Denote(w, SplitPlan(left, right, kind, s)) ==
            OnJoin(w, kind, cs, Fields(left), Fields(right), Denote(w, left), Denote(w, right))
  {
    var lf, rf := Fields(left), Fields(right);
    var ls, rs := Denote(w, left), Denote(w, right);
    DenoteArity(w, left);
    DenoteArity(w, right);
    SplitPlanRows(w, left, right, kind, s);
    if kind == Inner {
      InnerSplit(w, cs, s, lf, rf, ls, rs);
    } else {
      LeftSplit(w, cs, s, lf, rf, ls, rs);
      KeepAll(w, lf, ls);
      KeepAll(w, lf + rf, JoinRows(w, Left, s.on, lf, rf, ls, Keep(w, s.right, rf, rs)));
    }
  }

  lemma {:induction false} AndOfReads(cs: seq<BExpr>, fs: seq<Field>)
    requires cs != [] && ReadAll(cs, fs)
    ensures Reads(AndOf(cs), fs)
  {
    if |cs| > 1 {
      forall n | n in Cols(And(cs)) ensures n in Names(fs) {
        var i :| 0 <= i < |cs| && n in Cols(cs[i]);
        assert Reads(cs[i], fs);
      }
    }
  }

  lemma SplitPlanWf(left: Plan, right: Plan, kind: JoinKind, s: Parts)
    requires Wf(left) && Wf(right) && Sides(Fields(left), Fields(right)) && PartsRead(s, Fields(left), Fields(right))
    ensures Wf(SplitPlan(left, right, kind, s)) && Fields(SplitPlan(left, right, kind, s)) == Fields(left) + Fields(right)
  {
    var l, r := FilterBy(left, s.left), FilterBy(right, s.right);
    FilterByWf(left, s.left);
    FilterByWf(right, s.right);
    FilterByWf(Join(l, r, kind, s.on, Fields(l) + Fields(r)), s.residual);
  }

  lemma FilterByWf(p: Plan, cs: seq<BExpr>)
    requires Wf(p) && ReadAll(cs, Fields(p))
    ensures Wf(FilterBy(p, cs)) && Fields(FilterBy(p, cs)) == Fields(p)
  {
    if cs != [] { AndOfReads(cs, Fields(p)); }
  }

  /** Binds one JOIN: for INNER joins, and for LEFT joins whose condition is equalities and
      right-side filters, the plan's rows are those of the join on the whole ON condition. Without an
      equality between the sides it is refused, and so is a LEFT join with any other conjunct. */
  method BindJoin(left: Plan, right: Plan, kind: JoinKind, cs: seq<BExpr>) returns (r: Bound)
    requires Wf(left) && Wf(right) && Sides(Fields(left), Fields(right)) && ReadAll(cs, Fields(left) + Fields(right))
    ensures r.Ok? ==> Wf(r.plan) && Fields(r.plan) == Fields(left) + Fields(right)
    ensures r.Ok? ==> forall w: World :: EqIsSymmetric(w) ==>
              Denote(w, r.plan) == OnJoin(w, kind, cs, Fields(left), Fields(right), Denote(w, left), Denote(w, right))
    ensures r.Ok? ==> r.plan == SplitPlan(left, right, kind, Sorted(cs, Fields(left), Fields(right)))
    ensures SplitsEverywhere(cs, Sorted(cs, Fields(left), Fields(right)), Fields(left), Fields(right))
    ensures r == Err(NoEquality) <==> forall c :: c in cs ==> !KeyEquality(c, Fields(left), Fields(right))
    ensures r == Err(LeftUnsupported) <==>
              && (exists c :: c in cs && KeyEquality(c, Fields(left), Fields(right))) && kind == Left
              && exists c :: c in cs && !KeyEquality(c, Fields(left), Fields(right)) && !ReadsOnly(c, Fields(right))
  {
    var lf, rf := Fields(left), Fields(right);
    var lp, rp := PrefixesOf(Names(lf)), PrefixesOf(Names(rf));
    var parts := Parts([], [], [], []);
    var i := 0;
    while i < |cs|
      invariant 0 <= i <= |cs| && PartsRead(parts, lf, rf) && SplitsEverywhere(cs[..i], parts, lf, rf)
      invariant parts == Sorted(cs[..i], lf, rf)
    {
      PlaceReads(parts, cs[i], lf, rf);
      PlaceSplitsEverywhere(cs[..i], cs[i], parts, lf, rf);
      SortedPush(cs[..i], cs[i], lf, rf);
      assert cs[..i + 1] == cs[..i] + [cs[i]];
      parts := Place(parts, cs[i], lp, rp);
      i := i + 1;
    }
    assert cs[..i] == cs;
    KeysEmpty(cs, lf, rf);
    RefusedLists(cs, lf, rf);
    if parts.on == [] { return Err(NoEquality); }
    if kind == Left && (parts.left != [] || parts.residual != []) { return Err(LeftUnsupported); }
    SplitPlanWf(left, right, kind, parts);
    r := Ok(SplitPlan(left, right, kind, parts));
    forall w: World | EqIsSymmetric(w)
      ensures Denote(w, r.plan) == OnJoin(w, kind, cs, lf, rf, Denote(w, left), Denote(w, right))
    {
      SplitPlanMeaning(w, left, right, kind, cs, parts);
    }
  }
}
