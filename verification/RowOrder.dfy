/** The comparison behind ORDER BY (src/exec/kernels/order.rs), and the rows it sorts into. */
module RowOrder {
  import opened Options
  import opened Order
  import opened Sorting

  type Row = seq<Value>

  datatype Key = Key(column: nat, descending: bool, nullsFirst: bool)

  /** The cells are NULL or of their columns' types, and every key is a column. */
  predicate Typed(row: Row, types: seq<Type>)
  {
    |row| == |types| && forall c :: 0 <= c < |row| ==> row[c].Null? || HasType(row[c], types[c])
  }

  predicate KeysOk(keys: seq<Key>, types: seq<Type>)
  {
    forall i :: 0 <= i < |keys| ==> keys[i].column < |types|
  }

  // ── What the order is ──────────────────────────────────────────────────────

  /** NULLs stand where `nullsFirst` says, whatever the direction of the rest. */
  ghost predicate CellBefore(key: Key, t: Type, x: Value, y: Value)
  {
    if x.Null? || y.Null? then (if key.nullsFirst then x.Null? && !y.Null? else !x.Null? && y.Null?)
    else if key.descending then Below(y, x, t) else Below(x, y, t)
  }

  ghost predicate KeyBefore(keys: seq<Key>, types: seq<Type>, a: Row, b: Row, k: nat)
    requires KeysOk(keys, types) && Typed(a, types) && Typed(b, types) && k < |keys|
  {
    var c := keys[k].column;
    CellBefore(keys[k], types[c], a[c], b[c])
  }

  ghost predicate Ahead(keys: seq<Key>, types: seq<Type>, a: Row, b: Row, k: nat)
    requires KeysOk(keys, types) && Typed(a, types) && Typed(b, types) && k < |keys|
  {
    && (forall j :: 0 <= j < k ==> !KeyBefore(keys, types, a, b, j) && !KeyBefore(keys, types, b, a, j))
    && KeyBefore(keys, types, a, b, k)
  }

  /** The first key on which the rows differ decides. */
  ghost predicate Precedes(keys: seq<Key>, types: seq<Type>, a: Row, b: Row)
    requires KeysOk(keys, types) && Typed(a, types) && Typed(b, types)
  {
    exists k :: 0 <= k < |keys| && Ahead(keys, types, a, b, k)
  }

  // ── The loop ───────────────────────────────────────────────────────────────

  /** One key of `compare_rows`. */
  function CompareCells(key: Key, x: Value, y: Value): Ordering
    requires !x.Null? && !y.Null? ==> TotalCmp(x, y).Some?
  {
    if x.Null? && y.Null? then Equal
    else if x.Null? then if key.nullsFirst then Less else Greater
    else if y.Null? then if key.nullsFirst then Greater else Less
    else
      var o := TotalCmp(x, y).value;
      if key.descending then Opposite(o) else o
  }

  predicate Fits(x: Value, t: Type)
  {
    x.Null? || HasType(x, t)
  }

  lemma {:induction false} CellsCompare(key: Key, t: Type, x: Value, y: Value)
    requires Fits(x, t) && Fits(y, t)
    ensures !x.Null? && !y.Null? ==> TotalCmp(x, y).Some?
    ensures CompareCells(key, x, y) ==
            if CellBefore(key, t, x, y) then Less else if CellBefore(key, t, y, x) then Greater else Equal
    ensures !(CellBefore(key, t, x, y) && CellBefore(key, t, y, x))
  {
    if !x.Null? && !y.Null? {
      TotalCmpIs(x, y, t);
      TotalCmpIs(y, x, t);
      CmpFlips(x, y, t);
    }
  }

  /** `compare_rows`. */
  method CompareRows(keys: seq<Key>, a: Row, b: Row, ghost types: seq<Type>) returns (o: Ordering)
    requires KeysOk(keys, types) && Typed(a, types) && Typed(b, types)
    ensures o == Less <==> Precedes(keys, types, a, b)
    ensures o == Greater <==> Precedes(keys, types, b, a)
  {
    var i := 0;
    while i < |keys|
      invariant 0 <= i <= |keys|
      invariant forall j :: 0 <= j < i ==> !KeyBefore(keys, types, a, b, j) && !KeyBefore(keys, types, b, a, j)
    {
      var c := keys[i].column;
      CellsCompare(keys[i], types[c], a[c], b[c]);
      o := CompareCells(keys[i], a[c], b[c]);
      if o != Equal {
        assert if o == Less then Ahead(keys, types, a, b, i) else Ahead(keys, types, b, a, i);
        return;
      }
      i := i + 1;
    }
    return Equal;
  }

  // ── It sorts ───────────────────────────────────────────────────────────────

  lemma {:induction false} CellsChain(key: Key, t: Type, x: Value, y: Value, z: Value)
    requires Fits(x, t) && Fits(y, t) && Fits(z, t)
    requires !CellBefore(key, t, y, x) && !CellBefore(key, t, z, y)
    ensures !CellBefore(key, t, z, x)
    ensures CellBefore(key, t, x, y) || CellBefore(key, t, y, z) ==> CellBefore(key, t, x, z)
  {
    if !x.Null? && !y.Null? && !z.Null? {
      Strict(x, y, z, t);
      Strict(z, y, x, t);
    }
  }

  /** `Below` is a strict weak order on a type. */
  lemma {:induction false} Strict(x: Value, y: Value, z: Value, t: Type)
    requires HasType(x, t) && HasType(y, t) && HasType(z, t)
    ensures !Below(y, x, t) && !Below(z, y, t) ==> !Below(z, x, t)
    ensures !Below(y, x, t) && !Below(z, y, t) && (Below(x, y, t) || Below(y, z, t)) ==> Below(x, z, t)
  {
    AtMostIs(x, y, t);
    AtMostIs(y, z, t);
    AtMostIs(x, z, t);
    AtMostIs(y, x, t);
    AtMostIs(z, y, t);
    AtMostIs(z, x, t);
    CmpChains(x, y, z, t);
    CmpChains(z, x, y, t);
    CmpChains(y, z, x, t);
  }

  lemma {:induction false} AtMostIs(x: Value, y: Value, t: Type)
    requires HasType(x, t) && HasType(y, t)
    ensures AtMost(x, y) <==> !Below(y, x, t)
  {
    CmpIsLess(y, x, t);
    CmpFlips(x, y, t);
  }

  /** From key `i` on. */
  ghost predicate BeforeFrom(keys: seq<Key>, types: seq<Type>, a: Row, b: Row, i: nat)
    requires KeysOk(keys, types) && Typed(a, types) && Typed(b, types) && i <= |keys|
    decreases |keys| - i
  {
    i < |keys| && (KeyBefore(keys, types, a, b, i) || (!KeyBefore(keys, types, b, a, i) && BeforeFrom(keys, types, a, b, i + 1)))
  }

  lemma {:induction false} PrecedesFrom(keys: seq<Key>, types: seq<Type>, a: Row, b: Row, i: nat)
    requires KeysOk(keys, types) && Typed(a, types) && Typed(b, types) && i <= |keys|
    requires forall j :: 0 <= j < i ==> !KeyBefore(keys, types, a, b, j) && !KeyBefore(keys, types, b, a, j)
    ensures BeforeFrom(keys, types, a, b, i) <==> Precedes(keys, types, a, b)
    decreases |keys| - i
  {
    if i < |keys| {
      var c := keys[i].column;
      CellsCompare(keys[i], types[c], a[c], b[c]);
      if KeyBefore(keys, types, a, b, i) {
        assert Ahead(keys, types, a, b, i);
      } else if !KeyBefore(keys, types, b, a, i) {
        PrecedesFrom(keys, types, a, b, i + 1);
      }
    }
  }

  lemma {:induction false} FromIsPreorder(keys: seq<Key>, types: seq<Type>, a: Row, b: Row, c: Row, i: nat)
    requires KeysOk(keys, types) && Typed(a, types) && Typed(b, types) && Typed(c, types) && i <= |keys|
    ensures !(BeforeFrom(keys, types, a, b, i) && BeforeFrom(keys, types, b, a, i))
    ensures !BeforeFrom(keys, types, b, a, i) && !BeforeFrom(keys, types, c, b, i) ==> !BeforeFrom(keys, types, c, a, i)
    decreases |keys| - i
  {
    if i < |keys| {
      var key, k := keys[i], keys[i].column;
      FromIsPreorder(keys, types, a, b, c, i + 1);
      CellsCompare(key, types[k], a[k], b[k]);
      CellsCompare(key, types[k], a[k], c[k]);
      if !KeyBefore(keys, types, b, a, i) && !KeyBefore(keys, types, c, b, i) {
        CellsChain(key, types[k], a[k], b[k], c[k]);
      }
    }
  }

  /** At most, for rows of the columns' types; all other rows come after them. */
  ghost function RowLe(keys: seq<Key>, types: seq<Type>): (Row, Row) -> bool
    requires KeysOk(keys, types)
  {
    (a: Row, b: Row) => !Typed(b, types) || (Typed(a, types) && !Precedes(keys, types, b, a))
  }

  lemma {:induction false} RowsArePreordered(keys: seq<Key>, types: seq<Type>)
    requires KeysOk(keys, types)
    ensures TotalPreorder(RowLe(keys, types))
  {
    var le := RowLe(keys, types);
    forall a, b ensures le(a, b) || le(b, a) {
      if Typed(a, types) && Typed(b, types) { Preordered(keys, types, a, b, b); }
    }
    forall a, b, c | le(a, b) && le(b, c) ensures le(a, c) {
      if Typed(c, types) { Preordered(keys, types, a, b, c); }
    }
  }

  lemma {:induction false} Preordered(keys: seq<Key>, types: seq<Type>, a: Row, b: Row, c: Row)
    requires KeysOk(keys, types) && Typed(a, types) && Typed(b, types) && Typed(c, types)
    ensures !(Precedes(keys, types, a, b) && Precedes(keys, types, b, a))
    ensures !Precedes(keys, types, b, a) && !Precedes(keys, types, c, b) ==> !Precedes(keys, types, c, a)
  {
    FromIsPreorder(keys, types, a, b, c, 0);
    PrecedesFrom(keys, types, a, b, 0);
    PrecedesFrom(keys, types, b, a, 0);
    PrecedesFrom(keys, types, c, b, 0);
    PrecedesFrom(keys, types, c, a, 0);
  }

  /** ORDER BY: no row precedes an earlier one, and rows no key tells apart keep their order. */
  lemma {:induction false} OrderBySorts(keys: seq<Key>, types: seq<Type>, rows: seq<Row>, row: Row)
    requires KeysOk(keys, types) && Typed(row, types) && forall i :: 0 <= i < |rows| ==> Typed(rows[i], types)
    ensures var s := Sort(rows, RowLe(keys, types));
            && multiset(s) == multiset(rows)
            && (forall i, j :: 0 <= i < j < |s| ==> Typed(s[i], types) && Typed(s[j], types) && !Precedes(keys, types, s[j], s[i]))
            && Ties(s, row, RowLe(keys, types)) == Ties(rows, row, RowLe(keys, types))
  {
    var le := RowLe(keys, types);
    var s := Sort(rows, le);
    RowsArePreordered(keys, types);
    SortSorts(rows, le);
    SortIsStable(rows, row, le);
    forall i | 0 <= i < |s| ensures Typed(s[i], types) {
      assert s[i] in multiset(rows);
    }
    forall i, j | 0 <= i < j < |s| ensures !Precedes(keys, types, s[j], s[i]) {
      assert le(s[i], s[j]);
    }
  }
}
