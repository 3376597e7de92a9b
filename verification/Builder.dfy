/** Building a column value by value (`ColumnBuilder`, src/exec/column.rs). */
module Builder {
  import opened Options
  import opened Order
  import opened Fit
  import opened Columns
  import opened Concat
  import opened ConcatLoops
  import B = Bitmaps

  // ── One push, on the buffers ───────────────────────────────────────────────

  /** The physical value behind a non-null value of a fixed-width type. */
  function CellOf(v: Value): Cell
  {
    match v
    case Int64(i) => Word(i)
    case UInt64(u) => Word(u)
    case Float64(f) => Double(f)
    case Decimal(d) => Word(d.unscaled)
    case Timestamp(ns) => Word(ns)
    case Date(days) => Word(days)
    case Uuid(o) => Block(o)
    case Ip(o) => Block(o)
    case _ => Word(0)
  }

  function ZeroCell(ty: DataType): Cell
  {
    match ty
    case Float64Type => Double(Fin(0.0))
    case UuidType => Block(seq(16, _ => 0))
    case IpType => Block(seq(16, _ => 0))
    case _ => Word(0)
  }

  function BytesOf(v: Value): seq<nat>
  {
    match v
    case Str(s) => s
    case Bytes(s) => s
    case _ => []
  }

  /** `push_default`: a zero, or the previous offset again. */
  function Defaulted(d: Data, ty: DataType): Data
  {
    match d
    case Bits(b) => Bits(b + [false])
    case Fixed(k, cells) => Fixed(k, cells + [ZeroCell(ty)])
    case Varying(k, o, bytes) => Varying(k, o + [Last(o)], bytes)
    case Nested(o, child) => Nested(o + [Last(o)], child)
  }

  /** The first null creates the bitmap, all-valid up to it. */
  function NullPushed(c: Column): Column
  {
    Column(c.ty, Defaulted(c.data, c.ty), Some(Marks(c.validity, Len(c)) + [false]), c.nullCount + 1)
  }

  function MarkValid(validity: Option<seq<bool>>): Option<seq<bool>>
  {
    if validity.None? then None else Some(validity.value + [true])
  }

  /** `push_coerced`; `None` when an offset would pass `u32::MAX`. */
  function Pushed(c: Column, v: Value): Option<Column>
    decreases v, if v.List? then |v.items| + 1 else 0
  {
    if v.Null? then Some(NullPushed(c))
    else
      var data := match c.data
        case Bits(b) => Some(Bits(b + [v.Bool? && v.b]))
        case Fixed(k, cells) => Some(Fixed(k, cells + [CellOf(v)]))
        case Varying(k, o, bytes) =>
          var end := |bytes| + |BytesOf(v)|;
          if end <= U32Max then Some(Varying(k, o + [end], bytes + BytesOf(v))) else None
        case Nested(o, child) =>
          if !v.List? || Len(child) + |v.items| > U32Max then None
          else
            var kid := PushItems(child, v, |v.items|);
            if kid.None? then None else Some(Nested(o + [Len(kid.value)], kid.value));
      if data.None? then None else Some(Column(c.ty, data.value, MarkValid(c.validity), c.nullCount))
  }

  /** The first `n` elements of a list, pushed one after another. */
  function PushItems(c: Column, v: Value, n: nat): Option<Column>
    requires v.List? && n <= |v.items|
    decreases v, n
  {
    if n == 0 then Some(c)
    else
      var before := PushItems(c, v, n - 1);
      if before.None? then None else Pushed(before.value, v.items[n - 1])
  }

  // ── What a push does to the rows ───────────────────────────────────────────

  /** Child elements that no row of the LIST column reaches yet. */
  ghost function Leftover(c: Column): seq<Value>
    requires Readable(c) && c.data.Nested?
  {
    Rows(c.data.child)[Last(c.data.offsets)..]
  }

  /** The row a push of `v` adds: `v`, with any leftover elements in front. */
  ghost function Landed(c: Column, v: Value): Value
    requires Readable(c)
  {
    if v.List? && c.data.Nested? then List(Leftover(c) + v.items) else v
  }

  ghost predicate PushedOnto(c: Column, row: Value, r: Column)
    requires Readable(c)
  {
    && Readable(r) && r.ty == c.ty && Len(r) == Len(c) + 1 && Rows(r) == Rows(c) + [row]
    && (Tight(c) ==> Tight(r))
  }

  lemma {:induction false} AllTrueCount(n: nat)
    ensures B.CountTrue(AllTrue(n)) == n
  {
    if n > 0 {
      AllTrueCount(n - 1);
      assert AllTrue(n)[1..] == AllTrue(n - 1);
    }
  }

  lemma MissingPush(validity: Option<seq<bool>>, n: nat)
    ensures Missing(Some(Marks(validity, n) + [false])) == Missing(validity) + 1
    ensures Missing(MarkValid(validity)) == Missing(validity)
  {
    B.CountAppend(Marks(validity, n), [false]);
    if validity.None? { AllTrueCount(n); } else { B.CountAppend(validity.value, [true]); }
  }

  lemma OffsetsPush(o: seq<nat>, n: nat)
    requires OffsetsOk(o) && Last(o) <= n <= U32Max
    ensures OffsetsOk(o + [n]) && Last(o + [n]) == n
  {
    forall i | 0 <= i < |o| ensures RisesAt(o + [n], i) {
      if i < |o| - 1 { assert RisesAt(o, i); }
    }
  }

  /** Rows before a push keep their payload. */
  lemma EarlierSpan<T>(o: seq<nat>, x: seq<T>, n: nat, y: seq<T>, i: nat)
    requires OffsetsOk(o) && Last(o) <= |x| && i < |o| - 1
    ensures Span(o + [n], x + y, i, 1) == Span(o, x, i, 1)
  {
    GapIs(o, i, 1);
    assert Gap(o + [n], i, 1) == Gap(o, i, 1);
    CutOfAppend(x, y, o[i], Gap(o, i, 1));
  }

  lemma EarlierSpanOver<T>(o: seq<nat>, x: seq<T>, n: nat, z: seq<T>, i: nat)
    requires OffsetsOk(o) && Last(o) <= |x| && i < |o| - 1 && x <= z
    ensures Span(o + [n], z, i, 1) == Span(o, x, i, 1)
  {
    assert z == x + z[|x|..];
    EarlierSpan(o, x, n, z[|x|..], i);
  }

  /** The pushed row reaches from the previous offset to the new one. */
  lemma NewSpan<T>(o: seq<nat>, x: seq<T>, n: nat)
    requires OffsetsOk(o) && Last(o) <= n <= |x|
    ensures Span(o + [n], x, |o| - 1, 1) == x[Last(o)..n]
  {
  }

  lemma CellRoundTrip(v: Value, ty: DataType)
    requires Holds(v, ty) && FixedType(ty) && !v.Null?
    ensures CellOk(CellOf(v), ty) && CellValue(CellOf(v), ty) == v
  {
  }

  lemma ZeroIsOk(ty: DataType)
    requires FixedType(ty)
    ensures CellOk(ZeroCell(ty), ty)
  {
    if ty.DecimalType? { Pow10Positive(ty.precision); }
  }

  /** The bitmap after a push, read row by row. */
  lemma NullsAfterPush(c: Column, r: Column, valid: bool, i: nat)
    requires Shaped(c) && i <= Len(c)
    requires r.validity == (if valid then MarkValid(c.validity) else Some(Marks(c.validity, Len(c)) + [false]))
    ensures IsNull(r, i) <==> if i < Len(c) then IsNull(c, i) else !valid
  {
  }

  lemma {:induction false} PushFixed(c: Column, v: Value)
    requires Readable(c) && Holds(v, c.ty) && !v.Null? && (c.data.Bits? || c.data.Fixed?)
    ensures Pushed(c, v).Some? && PushedOnto(c, v, Pushed(c, v).value)
  {
    var r := Pushed(c, v).value;
    MissingPush(c.validity, Len(c));
    if c.data.Fixed? { CellRoundTrip(v, c.ty); }
    assert Readable(r) && Len(r) == Len(c) + 1;
    forall i | 0 <= i < Len(r) ensures Rows(r)[i] == (Rows(c) + [v])[i] {
      NullsAfterPush(c, r, true, i);
      GetIsEntry(r, i);
      if i < Len(c) { GetIsEntry(c, i); }
    }
  }

  lemma {:induction false} PushNullFixed(c: Column)
    requires Readable(c) && (c.data.Bits? || c.data.Fixed?)
    ensures PushedOnto(c, Null, NullPushed(c))
  {
    var r := NullPushed(c);
    MissingPush(c.validity, Len(c));
    if c.data.Fixed? { ZeroIsOk(c.ty); }
    assert Readable(r) && Len(r) == Len(c) + 1;
    forall i | 0 <= i < Len(r) ensures Rows(r)[i] == (Rows(c) + [Null])[i] {
      NullsAfterPush(c, r, false, i);
      GetIsEntry(r, i);
      if i < Len(c) { GetIsEntry(c, i); }
    }
  }

  lemma NewBytes(o: seq<nat>, bytes: seq<nat>, s: seq<nat>)
    requires OffsetsOk(o) && Last(o) == |bytes|
    ensures Span(o + [|bytes| + |s|], bytes + s, |o| - 1, 1) == s
  {
    NewSpan(o, bytes + s, |bytes| + |s|);
    assert (bytes + s)[|bytes|..|bytes| + |s|] == s;
  }

  lemma {:induction false} TextGrows(o: seq<nat>, bytes: seq<nat>, s: seq<nat>)
    requires TextRows(o, bytes) && Utf8(s) && |bytes| + |s| <= U32Max
    ensures TextRows(o + [|bytes| + |s|], bytes + s)
  {
    var end := |bytes| + |s|;
    OffsetsPush(o, end);
    forall i | 0 <= i < |o| ensures Utf8(Span(o + [end], bytes + s, i, 1)) {
      if i < |o| - 1 { EarlierSpan(o, bytes, end, s, i); } else { NewBytes(o, bytes, s); }
    }
  }

  /** Pushing an offset onto a STRING or BYTES column whose payload grows to meet it. */
  lemma {:induction false} VaryingGrows(c: Column, s: seq<nat>, valid: bool, r: Column)
    requires Readable(c) && c.data.Varying? && |c.data.bytes| + |s| <= U32Max && Octets(s) && (c.ty.StringType? ==> Utf8(s))
    requires r.data == Varying(c.data.kind, c.data.offsets + [|c.data.bytes| + |s|], c.data.bytes + s) && r.ty == c.ty
    requires r.validity == (if valid then MarkValid(c.validity) else Some(Marks(c.validity, Len(c)) + [false]))
    requires r.nullCount == Missing(r.validity)
    ensures Readable(r) && Len(r) == Len(c) + 1
  {
    OffsetsPush(c.data.offsets, |c.data.bytes| + |s|);
    if c.ty.StringType? { TextGrows(c.data.offsets, c.data.bytes, s); }
    assert DataOk(r.data, r.ty);
  }

  lemma {:induction false} VaryingRow(c: Column, s: seq<nat>, valid: bool, r: Column, i: nat)
    requires Readable(c) && c.data.Varying? && Readable(r) && r.ty == c.ty && Len(r) == Len(c) + 1 && i <= Len(c)
    requires r.data == Varying(c.data.kind, c.data.offsets + [|c.data.bytes| + |s|], c.data.bytes + s)
    requires r.validity == (if valid then MarkValid(c.validity) else Some(Marks(c.validity, Len(c)) + [false]))
    ensures i < Len(c) ==> Get(r, i) == Get(c, i)
    ensures i == Len(c) ==> Get(r, i) == if !valid then Null else if c.ty.StringType? then Str(s) else Bytes(s)
  {
    var o, bytes, end := c.data.offsets, c.data.bytes, |c.data.bytes| + |s|;
    NullsAfterPush(c, r, valid, i);
    GetIsEntry(r, i);
    if i < Len(c) {
      GetIsEntry(c, i);
      EarlierSpan(o, bytes, end, s, i);
    } else {
      NewBytes(o, bytes, s);
    }
  }

  lemma {:induction false} PushVarying(c: Column, v: Value)
    requires Readable(c) && c.data.Varying? && Holds(v, c.ty) && !v.Null? && Pushed(c, v).Some?
    ensures PushedOnto(c, v, Pushed(c, v).value)
  {
    var r := Pushed(c, v).value;
    MissingPush(c.validity, Len(c));
    VaryingGrows(c, BytesOf(v), true, r);
    forall i | 0 <= i < Len(r) ensures Rows(r)[i] == (Rows(c) + [v])[i] { VaryingRow(c, BytesOf(v), true, r, i); }
  }

  lemma PushNullVarying(c: Column)
    requires Readable(c) && c.data.Varying?
    ensures PushedOnto(c, Null, NullPushed(c))
  {
    var r := NullPushed(c);
    MissingPush(c.validity, Len(c));
    assert c.data.bytes + [] == c.data.bytes;
    VaryingGrows(c, [], false, r);
    forall i | 0 <= i < Len(r) ensures Rows(r)[i] == (Rows(c) + [Null])[i] { VaryingRow(c, [], false, r, i); }
  }

  /** A LIST column over a child that only grew, with one more offset. */
  ghost predicate NestedGrows(c: Column, kid: Column, end: nat, valid: bool, r: Column)
    requires Readable(c) && c.data.Nested? && Readable(kid)
  {
    && kid.ty == c.ty.elem && Rows(c.data.child) <= Rows(kid) && Last(c.data.offsets) <= end <= Len(kid) && end <= U32Max
    && r.data == Nested(c.data.offsets + [end], kid) && r.ty == c.ty && r.nullCount == Missing(r.validity)
    && r.validity == (if valid then MarkValid(c.validity) else Some(Marks(c.validity, Len(c)) + [false]))
  }

  lemma {:induction false} NestedRow(c: Column, kid: Column, end: nat, valid: bool, r: Column, i: nat)
    requires Readable(c) && c.data.Nested? && Readable(kid) && NestedGrows(c, kid, end, valid, r) && i <= Len(c)
    requires Readable(r) && Len(r) == Len(c) + 1
    ensures i < Len(c) ==> Get(r, i) == Get(c, i)
    ensures i == Len(c) ==> Get(r, i) == if valid then List(Rows(kid)[Last(c.data.offsets)..end]) else Null
  {
    NullsAfterPush(c, r, valid, i);
    GetIsEntry(r, i);
    if i < Len(c) {
      GetIsEntry(c, i);
      EarlierSpanOver(c.data.offsets, Rows(c.data.child), end, Rows(kid), i);
    } else {
      NewSpan(c.data.offsets, Rows(kid), end);
    }
  }

  lemma {:induction false} NestedGrowsReads(c: Column, kid: Column, end: nat, valid: bool, r: Column)
    requires Readable(c) && c.data.Nested? && Readable(kid) && NestedGrows(c, kid, end, valid, r)
    ensures Readable(r) && Len(r) == Len(c) + 1
    ensures Rows(r) == Rows(c) + [if valid then List(Rows(kid)[Last(c.data.offsets)..end]) else Null]
  {
    OffsetsPush(c.data.offsets, end);
    assert Readable(r);
    var row := if valid then List(Rows(kid)[Last(c.data.offsets)..end]) else Null;
    forall i | 0 <= i < Len(r) ensures Rows(r)[i] == (Rows(c) + [row])[i] { NestedRow(c, kid, end, valid, r, i); }
  }

  lemma PushNullNested(c: Column)
    requires Readable(c) && c.data.Nested?
    ensures PushedOnto(c, Null, NullPushed(c))
  {
    MissingPush(c.validity, Len(c));
    NestedGrowsReads(c, c.data.child, Last(c.data.offsets), false, NullPushed(c));
  }

  /** A null push appends a NULL row. */
  lemma PushNullReads(c: Column)
    requires Readable(c)
    ensures PushedOnto(c, Null, NullPushed(c))
  {
    if c.data.Nested? { PushNullNested(c); }
    else if c.data.Varying? { PushNullVarying(c); }
    else { PushNullFixed(c); }
  }

  lemma {:induction false} PushNested(c: Column, v: Value, kid: Column)
    requires Readable(c) && c.data.Nested? && v.List? && Pushed(c, v).Some?
    requires PushItems(c.data.child, v, |v.items|) == Some(kid) && ItemsPushed(c.data.child, v, |v.items|, kid)
    ensures PushedOnto(c, Landed(c, v), Pushed(c, v).value)
  {
    var r, o, before := Pushed(c, v).value, c.data.offsets, Rows(c.data.child);
    MissingPush(c.validity, Len(c));
    NestedGrowsReads(c, kid, Len(kid), true, r);
    assert Rows(kid)[Last(o)..Len(kid)] == before[Last(o)..] + v.items;
  }

  ghost predicate ItemsPushed(c: Column, v: Value, n: nat, kid: Column)
    requires Readable(c) && v.List? && n <= |v.items|
  {
    Readable(kid) && kid.ty == c.ty && Rows(kid) == Rows(c) + v.items[..n] && (Tight(c) ==> Tight(kid))
  }

  /** A push appends the coerced value as one more row; in a LIST column, behind any leftover. */
  lemma {:induction false} PushReads(c: Column, v: Value)
    requires Readable(c) && Holds(v, c.ty) && Pushed(c, v).Some?
    ensures PushedOnto(c, Landed(c, v), Pushed(c, v).value)
    decreases v, if v.List? then |v.items| + 1 else 0
  {
    if v.Null? {
      PushNullReads(c);
    } else if c.data.Nested? {
      PushItemsRead(c.data.child, v, |v.items|);
      PushNested(c, v, PushItems(c.data.child, v, |v.items|).value);
    } else if c.data.Varying? {
      PushVarying(c, v);
    } else {
      PushFixed(c, v);
    }
  }

  lemma {:induction false} PushItemsRead(c: Column, v: Value, n: nat)
    requires Readable(c) && !c.ty.ListType? && v.List? && n <= |v.items| && PushItems(c, v, n).Some?
    requires forall i :: 0 <= i < |v.items| ==> Holds(v.items[i], c.ty)
    ensures ItemsPushed(c, v, n, PushItems(c, v, n).value)
    decreases v, n
  {
    if n > 0 {
      var mid := PushItems(c, v, n - 1).value;
      PushItemsRead(c, v, n - 1);
      PushReads(mid, v.items[n - 1]);
      assert v.items[..n] == v.items[..n - 1] + [v.items[n - 1]];
    }
  }

  // ── When a push is refused ─────────────────────────────────────────────────

  /** The bytes the first `n` elements add to a STRING or BYTES child. */
  function ItemBytes(v: Value, n: nat): nat
    requires v.List? && n <= |v.items|
  {
    if n == 0 then 0 else ItemBytes(v, n - 1) + |BytesOf(v.items[n - 1])|
  }

  lemma {:induction false} ItemsRefusedIff(c: Column, v: Value, n: nat)
    requires Readable(c) && !c.ty.ListType? && v.List? && n <= |v.items|
    requires forall i :: 0 <= i < |v.items| ==> Holds(v.items[i], c.ty)
    ensures PushItems(c, v, n).None? <==> c.data.Varying? && Payload(c) + ItemBytes(v, n) > U32Max
    ensures PushItems(c, v, n).Some? && c.data.Varying? ==>
              PushItems(c, v, n).value.data.Varying? && Payload(PushItems(c, v, n).value) == Payload(c) + ItemBytes(v, n)
    ensures PushItems(c, v, n).Some? && !c.data.Varying? ==> !PushItems(c, v, n).value.data.Varying? && !PushItems(c, v, n).value.data.Nested?
  {
    if n > 0 {
      ItemsRefusedIff(c, v, n - 1);
    }
  }

  /** A value is refused exactly when its bytes, its elements or its elements' bytes would take an
      offset past `u32::MAX`. */
  lemma PushRefusedIff(c: Column, v: Value)
    requires Readable(c) && Holds(v, c.ty)
    ensures Pushed(c, v).None? <==>
              || (c.data.Varying? && !v.Null? && Payload(c) + |BytesOf(v)| > U32Max)
              || (v.List? && Payload(c) + |v.items| > U32Max)
              || (v.List? && c.data.child.data.Varying? && Payload(c.data.child) + ItemBytes(v, |v.items|) > U32Max)
  {
    if v.List? { ItemsRefusedIff(c.data.child, v, |v.items|); }
  }

  /** The same LIST column over a child that only grew: nothing it shows changes. */
  lemma GrownChildUnseen(c: Column, kid: Column)
    requires Readable(c) && c.data.Nested? && Readable(kid) && kid.ty == c.ty.elem && Rows(c.data.child) <= Rows(kid)
    ensures var r := c.(data := Nested(c.data.offsets, kid)); Readable(r) && Len(r) == Len(c) && Rows(r) == Rows(c)
  {
    var r, o := c.(data := Nested(c.data.offsets, kid)), c.data.offsets;
    forall i | 0 <= i < Len(c) ensures Rows(r)[i] == Rows(c)[i] {
      GetIsEntry(r, i);
      GetIsEntry(c, i);
      var x, z := Rows(c.data.child), Rows(kid);
      assert z == x + z[|x|..];
      GapIs(o, i, 1);
      CutOfAppend(x, z[|x|..], o[i], Gap(o, i, 1));
    }
  }

  // ── What a refused push leaves ─────────────────────────────────────────────

  /** The element a list push stops at: the largest number of elements whose bytes still fit. */
  function StopAt(payload: nat, v: Value, n: nat): (k: nat)
    requires v.List? && n <= |v.items|
    ensures k <= n
  {
    if n == 0 || payload + ItemBytes(v, n) <= U32Max then n else StopAt(payload, v, n - 1)
  }

  lemma {:induction false} MoreBytes(v: Value, m: nat, n: nat)
    requires v.List? && m <= n <= |v.items|
    ensures ItemBytes(v, m) <= ItemBytes(v, n)
    decreases n
  {
    if m < n { MoreBytes(v, m, n - 1); }
  }

  lemma {:induction false} StopIs(payload: nat, v: Value, n: nat, k: nat)
    requires v.List? && k < n <= |v.items|
    requires payload + ItemBytes(v, k) <= U32Max < payload + ItemBytes(v, k + 1)
    ensures StopAt(payload, v, n) == k
    decreases n
  {
    MoreBytes(v, k + 1, n);
    if n == k + 1 {
      assert StopAt(payload, v, k) == k;
    } else {
      StopIs(payload, v, n - 1, k);
    }
  }

  /** Where the element loop stops is decided by sizes. */
  lemma ElementsStop(c: Column, v: Value, k: nat)
    requires Readable(c) && !c.ty.ListType? && v.List? && k < |v.items|
    requires forall i :: 0 <= i < |v.items| ==> Holds(v.items[i], c.ty)
    requires PushItems(c, v, k).Some? && PushItems(c, v, k + 1).None?
    ensures c.data.Varying? && StopAt(Payload(c), v, |v.items|) == k
  {
    ItemsRefusedIff(c, v, k);
    ItemsRefusedIff(c, v, k + 1);
    StopIs(Payload(c), v, |v.items|, k);
  }

  /** A refused push leaves the builder as it was: it was no list, or an over-long one, or its first
      element is the one that does not fit. */
  predicate LeavesNothing(c: Column, v: Value)
  {
    v.List? && c.data.Nested? ==>
      || Payload(c) + |v.items| > U32Max
      || (v.items != [] && c.data.child.data.Varying? && Payload(c.data.child) + |BytesOf(v.items[0])| > U32Max)
  }

  /** The builder's column after a refused push. */
  function Refused(c: Column, v: Value): Column
  {
    if LeavesNothing(c, v) then c
    else
      var kid := PushItems(c.data.child, v, StopAt(Payload(c.data.child), v, |v.items|));
      if kid.None? then c else c.(data := Nested(c.data.offsets, kid.value))
  }

  /** The elements a refused list push leaves behind. */
  function Stranded(c: Column, v: Value): seq<Value>
  {
    if LeavesNothing(c, v) then [] else v.items[..StopAt(Payload(c.data.child), v, |v.items|)]
  }

  lemma {:induction false} StopFits(payload: nat, v: Value, n: nat)
    requires v.List? && n <= |v.items| && payload <= U32Max
    ensures payload + ItemBytes(v, StopAt(payload, v, n)) <= U32Max
    ensures StopAt(payload, v, n) < n ==> payload + ItemBytes(v, StopAt(payload, v, n) + 1) > U32Max
  {
    if n > 0 && payload + ItemBytes(v, n) > U32Max { StopFits(payload, v, n - 1); }
  }

  lemma PayloadFits(c: Column)
    requires Readable(c) && c.data.Varying?
    ensures Payload(c) <= U32Max
  {
  }

  /** A push stopped inside a list grew the child by the elements before the refused one. */
  lemma StoppedChild(c: Column, v: Value) returns (kid: Column)
    requires Readable(c) && Holds(v, c.ty) && Pushed(c, v).None? && !LeavesNothing(c, v)
    ensures c.data.Nested? && v.List? && Readable(kid) && kid.ty == c.ty.elem
    ensures Refused(c, v) == c.(data := Nested(c.data.offsets, kid))
    ensures Rows(kid) == Rows(c.data.child) + Stranded(c, v) && Stranded(c, v) != []
  {
    var child := c.data.child;
    PushRefusedIff(c, v);
    PayloadFits(child);
    var k := StopAt(Payload(child), v, |v.items|);
    StopFits(Payload(child), v, |v.items|);
    assert ItemBytes(v, 1) == |BytesOf(v.items[0])|;
    ItemsRefusedIff(child, v, k);
    PushItemsRead(child, v, k);
    kid := PushItems(child, v, k).value;
  }

  /** Exactly when a refused push leaves nothing; whatever it leaves, no row shows it. */
  lemma RefusedUnchangedIff(c: Column, v: Value)
    requires Readable(c) && Holds(v, c.ty) && Pushed(c, v).None?
    ensures Refused(c, v) == c <==> LeavesNothing(c, v)
    ensures Readable(Refused(c, v)) && Refused(c, v).ty == c.ty && Rows(Refused(c, v)) == Rows(c)
  {
    if !LeavesNothing(c, v) {
      var kid := StoppedChild(c, v);
      assert |Rows(kid)| > |Rows(c.data.child)|;
      GrownChildUnseen(c, kid);
    }
  }

  lemma DropOfAppend<T>(x: seq<T>, z: seq<T>, n: nat)
    requires n <= |x|
    ensures (x + z)[n..] == x[n..] + z
  {
  }

  lemma {:induction false} LeftoverAfter(c: Column, v: Value)
    requires Readable(c) && Holds(v, c.ty) && v.List? && Pushed(c, v).None? && Readable(Refused(c, v)) && c.data.Nested?
    ensures Refused(c, v).data.Nested? && Leftover(Refused(c, v)) == Leftover(c) + Stranded(c, v)
  {
    if LeavesNothing(c, v) {
      assert Leftover(c) + [] == Leftover(c);
    } else {
      var kid := StoppedChild(c, v);
      DropOfAppend(Rows(c.data.child), Stranded(c, v), Last(c.data.offsets));
    }
  }

  /** The next list pushed begins with what was left before and what this push left. */
  lemma {:induction false} StrandedShowNext(c: Column, v: Value, w: Value)
    requires Readable(c) && Holds(v, c.ty) && v.List? && Pushed(c, v).None?
    requires Holds(w, c.ty) && w.List? && Pushed(Refused(c, v), w).Some?
    ensures var r := Pushed(Refused(c, v), w).value;
            Readable(r) && Rows(r) == Rows(c) + [List(Leftover(c) + Stranded(c, v) + w.items)]
  {
    RefusedUnchangedIff(c, v);
    LeftoverAfter(c, v);
    PushReads(Refused(c, v), w);
  }

  /** The loop's state is the specified one. */
  lemma StopLeaves(c: Column, v: Value, k: nat)
    requires Readable(c) && c.data.Nested? && Holds(v, c.ty) && v.List? && Payload(c) + |v.items| <= U32Max && k < |v.items|
    requires PushItems(c.data.child, v, k).Some? && PushItems(c.data.child, v, k + 1).None?
    ensures Pushed(c, v).None? && Refused(c, v) == c.(data := Nested(c.data.offsets, PushItems(c.data.child, v, k).value))
  {
    var child := c.data.child;
    ElementsStop(child, v, k);
    ItemsStop(child, v, k + 1);
    assert ItemBytes(v, 1) == |BytesOf(v.items[0])|;
    if LeavesNothing(c, v) {
      ItemsRefusedIff(child, v, k);
      if k > 0 { MoreBytes(v, 1, k); }
      assert PushItems(child, v, 0) == Some(child);
    }
  }

  lemma {:induction false} AsciiIsUtf8(s: seq<nat>)
    requires forall i :: 0 <= i < |s| ==> s[i] < 128
    ensures Utf8(s)
  {
    if s != [] { AsciiIsUtf8(s[1..]); }
  }

  function Letters(n: nat): Value
  {
    Str(seq(n, _ => 97))
  }

  lemma {:induction false} LettersHold(n: nat)
    ensures Holds(Letters(n), StringType) && |BytesOf(Letters(n))| == n
  {
    AsciiIsUtf8(BytesOf(Letters(n)));
  }

  function Texts(): Column { Empty(ListType(StringType)) }
  function TooMuch(): Value { List([Letters(1), Letters(U32Max)]) }
  function Next(): Value { List([Letters(2)]) }

  lemma {:induction false} TextsHold()
    ensures Readable(Texts()) && Rows(Texts()) == [] && Leftover(Texts()) == []
    ensures Holds(TooMuch(), Texts().ty) && Holds(Next(), Texts().ty)
  {
    EmptyIsValid(Texts().ty);
    LettersHold(1);
    LettersHold(2);
    LettersHold(U32Max);
  }

  /** A LIST of STRING: a list of `a` and of a string as long as any may be is refused, and the next
      list pushed, of one `aa`, reads as `a` and `aa`. */
  lemma {:induction false} LeftoverSeen()
    ensures Readable(Texts()) && Rows(Texts()) == [] && Holds(TooMuch(), Texts().ty) && Pushed(Texts(), TooMuch()).None?
    ensures Pushed(Refused(Texts(), TooMuch()), Next()).Some?
    ensures var r := Pushed(Refused(Texts(), TooMuch()), Next()).value;
            Readable(r) && Rows(r) == [List([Letters(1), Letters(2)])]
  {
    TextsHold();
    LeftoverRefused();
    StrandedShowNext(Texts(), TooMuch(), Next());
    assert [] + [Letters(1)] + Next().items == [Letters(1), Letters(2)];
  }

  lemma {:induction false} TooMuchBytes()
    ensures ItemBytes(TooMuch(), 1) == 1 && ItemBytes(TooMuch(), 2) == 1 + U32Max && ItemBytes(Next(), 1) == 2
  {
    LettersHold(1);
    LettersHold(2);
    LettersHold(U32Max);
    assert ItemBytes(TooMuch(), 0) == 0 && ItemBytes(Next(), 0) == 0;
  }

  /** A list with room behind what was left is not refused. */
  lemma {:induction false} NextFits(c: Column, v: Value, w: Value, k: nat)
    requires Readable(c) && Holds(v, c.ty) && Pushed(c, v).None? && !LeavesNothing(c, v)
    requires v.List? && c.data.Nested? && k == StopAt(Payload(c.data.child), v, |v.items|)
    requires Holds(w, c.ty) && w.List? && Payload(c) + k + |w.items| <= U32Max
    requires Payload(c.data.child) + ItemBytes(v, k) + ItemBytes(w, |w.items|) <= U32Max
    ensures Pushed(Refused(c, v), w).Some?
  {
    var kid := StoppedChild(c, v);
    RefusedUnchangedIff(c, v);
    PushRefusedIff(c, v);
    ItemsRefusedIff(c.data.child, v, k);
    PushRefusedIff(Refused(c, v), w);
  }

  lemma {:induction false} TooMuchRefused()
    requires Readable(Texts()) && Holds(TooMuch(), Texts().ty)
    ensures Pushed(Texts(), TooMuch()).None? && !LeavesNothing(Texts(), TooMuch())
    ensures StopAt(0, TooMuch(), 2) == 1 && Stranded(Texts(), TooMuch()) == [Letters(1)]
  {
    TooMuchBytes();
    PushRefusedIff(Texts(), TooMuch());
    StopIs(0, TooMuch(), 2, 1);
    assert ItemBytes(TooMuch(), 1) == |BytesOf(TooMuch().items[0])|;
    assert TooMuch().items[..1] == [Letters(1)];
  }

  lemma {:induction false} LeftoverRefused()
    requires Readable(Texts()) && Holds(TooMuch(), Texts().ty) && Holds(Next(), Texts().ty)
    ensures Pushed(Texts(), TooMuch()).None? && Stranded(Texts(), TooMuch()) == [Letters(1)]
    ensures Pushed(Refused(Texts(), TooMuch()), Next()).Some?
  {
    TooMuchRefused();
    TooMuchBytes();
    NextFits(Texts(), TooMuch(), Next(), 1);
  }

  // ── The builder ────────────────────────────────────────────────────────────

  datatype BuilderData = Plain(data: Data) | Lists(offsets: seq<nat>, values: ColumnBuilder)

  class ColumnBuilder {
    const ty: DataType
    var data: BuilderData
    var validity: Option<seq<bool>>
    var nullCount: nat
    var len: nat

    /** The child builder of a LIST. */
    ghost function Kids(): set<object>
      reads this
    {
      if data.Lists? then {data.values} else {}
    }

    ghost predicate Shape()
      reads this, Kids()
    {
      && ValidType(ty) && (data.Lists? <==> ty.ListType?) && (data.Plain? ==> !data.data.Nested?)
      && (data.Lists? ==>
            data.values != this && data.values.ty == ty.elem && data.values.data.Plain? && !data.values.data.data.Nested?)
    }

    /** The column `finish` would return now. */
    ghost function Finished(): Column
      reads this, Kids()
      requires Shape()
    {
      if data.Plain? then Column(ty, data.data, validity, nullCount)
      else
        var kid := data.values;
        Column(ty, Nested(data.offsets, Column(kid.ty, kid.data.data, kid.validity, kid.nullCount)), validity, nullCount)
    }

    ghost predicate Valid()
      reads this, Kids()
    {
      && Shape() && Readable(Finished()) && len == Len(Finished())
      && (data.Lists? ==> data.values.len == Len(Finished().data.child))
    }

    constructor (ty: DataType)
      requires ValidType(ty)
      ensures this.ty == ty && Valid() && fresh(Kids()) && Finished() == Empty(ty)
      decreases ty
    {
      this.ty := ty;
      validity, nullCount, len := None, 0, 0;
      match ty {
        case BoolType => data := Plain(Bits([]));
        case StringType => data := Plain(Varying(TString, [0], []));
        case BytesType => data := Plain(Varying(TBytes, [0], []));
        case ListType(e) =>
          var kid := new ColumnBuilder(e);
          data := Lists([0], kid);
        case _ => data := Plain(Fixed(Kind(ty), []));
      }
      new;
      EmptyIsValid(ty);
    }

    method PushNull()
      requires Valid()
      modifies this
      ensures Valid() && Kids() == old(Kids()) && Finished() == NullPushed(old(Finished()))
    {
      PushNullReads(Finished());
      match data {
        case Plain(d) => data := Plain(Defaulted(d, ty));
        case Lists(o, values) => data := Lists(o + [Last(o)], values);
      }
      if validity.None? { validity := Some(AllTrue(len)); }
      validity := Some(validity.value + [false]);
      len, nullCount := len + 1, nullCount + 1;
    }

    /** `push_coerced` into a buffer that is not a LIST. */
    method PushPlain(v: Value) returns (ok: bool)
      requires Valid() && data.Plain? && Holds(v, ty) && !v.Null?
      modifies this
      ensures Valid() && data.Plain?
      ensures Pushed(old(Finished()), v) == if ok then Some(Finished()) else None
      ensures !ok ==> Finished() == old(Finished())
    {
      ghost var before := Finished();
      match data.data {
        case Bits(b) => data := Plain(Bits(b + [v.b]));
        case Fixed(k, cells) => data := Plain(Fixed(k, cells + [CellOf(v)]));
        case Varying(k, o, bytes) =>
          var s := BytesOf(v);
          if |bytes| + |s| > U32Max { return false; }
          data := Plain(Varying(k, o + [|bytes| + |s|], bytes + s));
      }
      if validity.Some? { validity := Some(validity.value + [true]); }
      len := len + 1;
      ok := true;
      assert Pushed(before, v) == Some(Finished());
      PushReads(before, v);
    }

    /** The element loop of a list push, run on the child; stops at the first that does not fit. */
    method PushElements(v: Value) returns (k: nat)
      requires Valid() && data.Plain? && v.List? && forall i :: 0 <= i < |v.items| ==> Holds(v.items[i], ty)
      modifies this
      ensures Valid() && data.Plain? && k <= |v.items|
      ensures PushItems(old(Finished()), v, k) == Some(Finished())
      ensures k < |v.items| ==> PushItems(old(Finished()), v, k + 1) == None && PushItems(old(Finished()), v, |v.items|) == None
    {
      ghost var before := Finished();
      k := 0;
      while k < |v.items|
        invariant k <= |v.items| && Valid() && data.Plain? && PushItems(before, v, k) == Some(Finished())
      {
        if v.items[k].Null? {
          PushNull();
        } else {
          var fits := PushPlain(v.items[k]);
          if !fits {
            ItemsStop(before, v, k + 1);
            return;
          }
        }
        k := k + 1;
      }
    }

    /** `push_coerced` of a list. Over-long, it is refused before any element goes in; an element
        whose own bytes overflow stops it half way, and the elements before it stay in the child. */
    method PushList(v: Value) returns (ok: bool)
      requires Valid() && data.Lists? && Holds(v, ty) && v.List?
      modifies this, data.values
      ensures Valid() && data.Lists? && data.values == old(data.values)
      ensures ok ==> Pushed(old(Finished()), v) == Some(Finished())
      ensures !ok ==> Pushed(old(Finished()), v) == None && Finished() == Refused(old(Finished()), v)
      ensures !ok ==> (Finished() == old(Finished()) <==> LeavesNothing(old(Finished()), v))
      ensures !ok ==> Rows(Finished()) == old(Rows(Finished()))
    {
      var kid := data.values;
      ghost var before := Finished();
      if kid.len + |v.items| > U32Max { return false; }
      assert kid.Finished() == before.data.child;
      var k := kid.PushElements(v);
      PushItemsRead(before.data.child, v, k);
      if k < |v.items| {
        StopLeaves(before, v, k);
        RefusedUnchangedIff(before, v);
        assert Finished() == Refused(before, v);
        return false;
      }
      data := Lists(data.offsets + [kid.len], kid);
      if validity.Some? { validity := Some(validity.value + [true]); }
      len := len + 1;
      ok := true;
      assert Pushed(before, v) == Some(Finished());
      PushReads(before, v);
    }

    /** `push`: the coerced value becomes the next row; a value that does not fit changes nothing. */
    method Push(v: Value) returns (r: Option<ColumnError>)
      requires Valid() && Representable(v)
      modifies this, Kids()
      ensures Valid() && Kids() == old(Kids())
      ensures r == Some(DoesNotFit) <==> Coerce(v, ty).None?
      ensures r == Some(DoesNotFit) ==> Finished() == old(Finished())
      ensures r.Some? ==> Rows(Finished()) == old(Rows(Finished()))
      ensures r.Some? && Coerce(v, ty).Some? ==> r.value == TooLarge && Pushed(old(Finished()), Coerce(v, ty).value).None?
      ensures r == Some(TooLarge) ==> Finished() == Refused(old(Finished()), Coerce(v, ty).value)
      ensures r == Some(TooLarge) ==> (Finished() == old(Finished()) <==> LeavesNothing(old(Finished()), Coerce(v, ty).value))
      ensures r.None? ==> Pushed(old(Finished()), Coerce(v, ty).value) == Some(Finished())
      ensures r.None? ==> PushedOnto(old(Finished()), old(Landed(Finished(), Coerce(v, ty).value)), Finished())
    {
      ghost var before := Finished();
      var coerced := Coerce(v, ty);
      if coerced.None? { return Some(DoesNotFit); }
      CoerceIsExact(v, ty);
      var ok := true;
      if coerced.value.Null? {
        PushNull();
      } else if data.Lists? {
        ok := PushList(coerced.value);
      } else {
        ok := PushPlain(coerced.value);
      }
      if !ok { return Some(TooLarge); }
      PushReads(before, coerced.value);
      r := None;
    }

    method Finish() returns (c: Column)
      requires Valid()
      ensures c == Finished()
    {
      match data {
        case Plain(d) => c := Column(ty, d, validity, nullCount);
        case Lists(o, values) =>
          var child := Column(values.ty, values.data.data, values.validity, values.nullCount);
          c := Column(ty, Nested(o, child), validity, nullCount);
      }
    }
  }

  /** Once an element does not fit, the list does not. */
  lemma {:induction false} ItemsStop(c: Column, v: Value, k: nat)
    requires v.List? && k <= |v.items| && PushItems(c, v, k).None?
    ensures PushItems(c, v, |v.items|).None?
    decreases |v.items| - k
  {
    if k < |v.items| { ItemsStop(c, v, k + 1); }
  }

  // ── Whole columns from values ──────────────────────────────────────────────

  /** With no leftover, what lands is the value itself. */
  lemma LandsAsItself(c: Column, v: Value)
    requires Columns.Valid(c)
    ensures Landed(c, v) == v
  {
    if v.List? && c.data.Nested? { assert Leftover(c) + v.items == v.items; }
  }

  function NullsIn(values: seq<Value>): nat
  {
    if values == [] then 0 else NullsIn(values[..|values| - 1]) + (if values[|values| - 1].Null? then 1 else 0)
  }

  lemma PushedNulls(c: Column, v: Value)
    requires Pushed(c, v).Some?
    ensures Pushed(c, v).value.nullCount == c.nullCount + if v.Null? then 1 else 0
    ensures Pushed(c, v).value.validity.None? <==> c.validity.None? && !v.Null?
  {
  }

  lemma CoercedNull(v: Value, ty: DataType)
    requires Representable(v) && ValidType(ty) && Coerce(v, ty).Some?
    ensures Coerce(v, ty).value.Null? <==> v.Null?
  {
    CoerceIsExact(v, ty);
  }

  /** The column holds exactly the coerced values, and a bitmap exactly when one of them is NULL. */
  ghost predicate BuiltFrom(c: Column, ty: DataType, values: seq<Value>)
  {
    && Columns.Valid(c) && c.ty == ty && Len(c) == |values|
    && (forall i :: 0 <= i < |values| ==> Coerce(values[i], ty) == Some(Get(c, i)))
    && c.nullCount == NullsIn(values) && (c.validity.None? <==> NullsIn(values) == 0)
  }

  lemma BuiltFurther(c: Column, ty: DataType, values: seq<Value>, k: nat, r: Column)
    requires ValidType(ty) && k < |values| && Representable(values[k]) && BuiltFrom(c, ty, values[..k])
    requires Coerce(values[k], ty).Some? && Pushed(c, Coerce(values[k], ty).value) == Some(r)
    requires PushedOnto(c, Landed(c, Coerce(values[k], ty).value), r)
    ensures BuiltFrom(r, ty, values[..k + 1])
  {
    var v := Coerce(values[k], ty).value;
    LandsAsItself(c, v);
    CoercedNull(values[k], ty);
    PushedNulls(c, v);
    assert values[..k + 1][..k] == values[..k];
    forall i | 0 <= i <= k ensures Coerce(values[..k + 1][i], ty) == Some(Get(r, i)) {
      assert Rows(r)[i] == (Rows(c) + [v])[i];
      if i < k { assert values[..k][i] == values[..k + 1][i]; }
    }
  }

  /** `Column::from_values`. */
  method FromValues(ty: DataType, values: seq<Value>) returns (r: Result<Column>)
    requires ValidType(ty) && forall i :: 0 <= i < |values| ==> Representable(values[i])
    ensures r.Ok? ==> BuiltFrom(r.value, ty, values)
    ensures r == Err(DoesNotFit) ==> exists k :: 0 <= k < |values| && Coerce(values[k], ty).None?
    ensures r == Err(TooLarge) ==> exists k: nat, c: Column :: BuiltUpTo(c, ty, values, k) && PushTooLarge(c, values[k])
    ensures r != Err(Malformed)
  {
    var b := new ColumnBuilder(ty);
    EmptyIsValid(ty);
    var k := 0;
    while k < |values|
      invariant 0 <= k <= |values| && b.Valid() && fresh(b) && fresh(b.Kids()) && b.ty == ty
      invariant BuiltFrom(b.Finished(), ty, values[..k])
    {
      ghost var before := b.Finished();
      var e := b.Push(values[k]);
      if e.Some? {
        if e.value == TooLarge {
          assert BuiltUpTo(before, ty, values, k) && PushTooLarge(before, values[k]);
        }
        return Err(e.value);
      }
      BuiltFurther(before, ty, values, k, b.Finished());
      k := k + 1;
    }
    assert values[..k] == values;
    var c := b.Finish();
    r := Ok(c);
  }

  /** The first `k` values, built. */
  ghost predicate BuiltUpTo(c: Column, ty: DataType, values: seq<Value>, k: nat)
  {
    k < |values| && BuiltFrom(c, ty, values[..k])
  }

  ghost predicate PushTooLarge(c: Column, v: Value)
  {
    Coerce(v, c.ty).Some? && Pushed(c, Coerce(v, c.ty).value).None?
  }
}
