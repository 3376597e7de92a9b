/** Column buffers (src/exec/column.rs) as representations of plain sequences of values. A bitmap
    appears here as its rows: `Bitmaps` shows that the packed words are determined by them. */
module Columns {
  import opened Options
  import opened Order
  import opened Fit
  import B = Bitmaps

  const U32Max := 0xFFFF_FFFF

  /** One entry of a fixed-width buffer: a machine integer, a double or 16 octets. */
  datatype Cell = Word(n: int) | Double(f: Float) | Block(octets: seq<nat>)

  /** The physical layout. `kind` is the buffer variant; precision and scale live in the type. */
  datatype Data =
    | Bits(bits: seq<bool>)
    | Fixed(kind: Type, cells: seq<Cell>)
    | Varying(kind: Type, offsets: seq<nat>, bytes: seq<nat>)
    | Nested(offsets: seq<nat>, child: Column)

  datatype Column = Column(ty: DataType, data: Data, validity: Option<seq<bool>>, nullCount: nat)

  function Kind(ty: DataType): Type
  {
    match ty
    case BoolType => TBool
    case Int64Type => TInt64
    case UInt64Type => TUInt64
    case Float64Type => TFloat64
    case DecimalType(_, _) => TDecimal
    case StringType => TString
    case BytesType => TBytes
    case TimestampType => TTimestamp
    case DateType => TDate
    case UuidType => TUuid
    case IpType => TIp
    case ListType(e) => TList(Kind(e))
  }

  function Size(d: Data): nat
  {
    match d
    case Bits(b) => |b|
    case Fixed(_, cells) => |cells|
    case Varying(_, o, _) => if o == [] then 0 else |o| - 1
    case Nested(o, _) => if o == [] then 0 else |o| - 1
  }

  function Len(c: Column): nat
  {
    Size(c.data)
  }

  function Last(o: seq<nat>): nat
  {
    if o == [] then 0 else o[|o| - 1]
  }

  function AllTrue(n: nat): (s: seq<bool>)
    ensures |s| == n && forall i :: 0 <= i < n ==> s[i]
  {
    seq(n, _ => true)
  }

  /** The number of null rows a validity bitmap records. */
  function Missing(validity: Option<seq<bool>>): nat
  {
    if validity.None? then 0 else |validity.value| - B.CountTrue(validity.value)
  }

  // ── What `get` relies on ───────────────────────────────────────────────────

  /** A machine value of the type's buffer. */
  predicate CellOk(c: Cell, ty: DataType)
  {
    match ty
    case Int64Type => c.Word? && I64Min <= c.n <= I64Max
    case UInt64Type => c.Word? && 0 <= c.n <= U64Max
    case Float64Type => c.Double?
    case DecimalType(p, _) => c.Word? && -Pow10(p) < c.n < Pow10(p)
    case TimestampType => c.Word? && I64Min <= c.n <= I64Max
    case DateType => c.Word? && I32Min <= c.n <= I32Max
    case UuidType => c.Block? && Octets(c.octets) && |c.octets| == 16
    case IpType => c.Block? && Octets(c.octets) && |c.octets| == 16
    case _ => false
  }

  predicate RisesAt(o: seq<nat>, i: nat)
  {
    i + 1 < |o| ==> o[i] <= o[i + 1]
  }

  predicate Ascending(o: seq<nat>)
  {
    forall i :: 0 <= i < |o| - 1 ==> RisesAt(o, i)
  }

  lemma {:induction false} AscendingAt(o: seq<nat>, i: nat, j: nat)
    requires Ascending(o) && i <= j < |o|
    ensures o[i] <= o[j] <= Last(o)
  {
    Ascends(o, i, j);
    Ascends(o, j, |o| - 1);
  }

  lemma {:induction false} Ascends(o: seq<nat>, i: nat, j: nat)
    requires Ascending(o) && i <= j < |o|
    ensures o[i] <= o[j]
    decreases j
  {
    if i < j {
      assert RisesAt(o, j - 1);
      Ascends(o, i, j - 1);
    }
  }

  predicate OffsetsOk(o: seq<nat>)
  {
    |o| >= 1 && o[0] == 0 && Ascending(o) && Last(o) <= U32Max
  }

  /** Offsets, payload, validity and null count fit together, whatever the cells hold. */
  ghost predicate Shaped(c: Column)
  {
    && (c.validity.Some? ==> |c.validity.value| == Len(c))
    && c.nullCount == Missing(c.validity)
    && (c.data.Varying? ==> OffsetsOk(c.data.offsets) && Last(c.data.offsets) == |c.data.bytes|)
    && (c.data.Nested? ==> OffsetsOk(c.data.offsets) && Last(c.data.offsets) <= Len(c.data.child) && Shaped(c.data.child))
  }

  ghost predicate TextRows(o: seq<nat>, bytes: seq<nat>)
  {
    OffsetsOk(o) && Last(o) == |bytes| && forall i :: 0 <= i < |o| - 1 ==> Utf8(Span(o, bytes, i, 1))
  }

  predicate FixedType(ty: DataType)
  {
    !ty.BoolType? && !ty.StringType? && !ty.BytesType? && !ty.ListType?
  }

  /** The buffer is the type's, and holds values of it; a LIST's child is left to `Typed`. */
  ghost predicate DataOk(d: Data, ty: DataType)
  {
    match d
    case Bits(_) => ty.BoolType?
    case Fixed(k, cells) => k == Kind(ty) && FixedType(ty) && forall i :: 0 <= i < |cells| ==> CellOk(cells[i], ty)
    case Varying(k, o, bytes) =>
      k == Kind(ty) && (ty.StringType? || ty.BytesType?) && Octets(bytes) && (ty.StringType? ==> TextRows(o, bytes))
    case Nested(_, child) => ty.ListType? && child.ty == ty.elem
  }

  ghost predicate Typed(c: Column)
  {
    ValidType(c.ty) && DataOk(c.data, c.ty) && (c.data.Nested? ==> Typed(c.data.child))
  }

  ghost predicate Readable(c: Column)
  {
    Shaped(c) && Typed(c)
  }

  /** Every element of a LIST child belongs to some row. */
  ghost predicate Tight(c: Column)
  {
    c.data.Nested? ==> Last(c.data.offsets) == Len(c.data.child) && Tight(c.data.child)
  }

  /** The invariant every column keeps. */
  ghost predicate Valid(c: Column)
  {
    Readable(c) && Tight(c)
  }

  // ── Reading ────────────────────────────────────────────────────────────────

  function CellValue(c: Cell, ty: DataType): Value
    requires CellOk(c, ty)
  {
    match ty
    case Int64Type => Int64(c.n)
    case UInt64Type => UInt64(c.n)
    case Float64Type => Float64(c.f)
    case DecimalType(_, s) => Decimal(Dec(c.n, s))
    case TimestampType => Timestamp(c.n)
    case DateType => Date(c.n)
    case UuidType => Uuid(c.octets)
    case IpType => Ip(c.octets)
  }

  predicate IsNull(c: Column, i: nat)
  {
    c.validity.Some? && i < |c.validity.value| && !c.validity.value[i]
  }

  /** A non-null row, given the rows of a LIST's child. */
  ghost function Entry(d: Data, ty: DataType, kids: seq<Value>, i: nat): Value
    requires DataOk(d, ty) && i < Size(d)
    requires d.Varying? ==> OffsetsOk(d.offsets) && Last(d.offsets) == |d.bytes|
    requires d.Nested? ==> OffsetsOk(d.offsets) && Last(d.offsets) <= |kids|
  {
    match d
    case Bits(b) => Bool(b[i])
    case Fixed(_, cells) => CellValue(cells[i], ty)
    case Varying(_, o, bytes) => if ty.StringType? then Str(Span(o, bytes, i, 1)) else Bytes(Span(o, bytes, i, 1))
    case Nested(o, _) => List(Span(o, kids, i, 1))
  }

  ghost function Get(c: Column, i: nat): Value
    requires Readable(c) && i < Len(c)
    decreases c
  {
    if IsNull(c, i) then Null
    else if c.data.Nested? then
      var kids := seq(Len(c.data.child), k requires 0 <= k < Len(c.data.child) => Get(c.data.child, k));
      Entry(c.data, c.ty, kids, i)
    else Entry(c.data, c.ty, [], i)
  }

  /** The column as a plain sequence. */
  ghost function Rows(c: Column): (r: seq<Value>)
    requires Readable(c)
    ensures |r| == Len(c) && forall i :: 0 <= i < |r| ==> r[i] == Get(c, i)
  {
    seq(Len(c), i requires 0 <= i < Len(c) => Get(c, i))
  }

  ghost function ChildRows(c: Column): (r: seq<Value>)
    requires Readable(c)
    ensures c.data.Nested? ==> |r| == Len(c.data.child)
  {
    if c.data.Nested? then Rows(c.data.child) else []
  }

  lemma GetIsEntry(c: Column, i: nat)
    requires Readable(c) && i < Len(c)
    ensures Get(c, i) == if IsNull(c, i) then Null else Entry(c.data, c.ty, ChildRows(c), i)
  {
    if c.data.Nested? {
      var child := c.data.child;
      assert seq(Len(child), k requires 0 <= k < Len(child) => Get(child, k)) == Rows(child);
    }
  }

  /** Whatever is read back is NULL or a value of the column's type. */
  lemma {:induction false} RowsHold(c: Column, i: nat)
    requires Readable(c) && i < Len(c)
    ensures Holds(Get(c, i), c.ty)
    decreases c
  {
    GetIsEntry(c, i);
    if c.data.Nested? {
      var child := c.data.child;
      forall k | 0 <= k < Len(child) ensures Holds(Rows(child)[k], child.ty) { RowsHold(child, k); }
    }
    EntryHolds(c.data, c.ty, ChildRows(c), i);
  }

  lemma EntryHolds(d: Data, ty: DataType, kids: seq<Value>, i: nat)
    requires ValidType(ty) && DataOk(d, ty) && i < Size(d)
    requires d.Varying? ==> OffsetsOk(d.offsets) && Last(d.offsets) == |d.bytes|
    requires d.Nested? ==> OffsetsOk(d.offsets) && Last(d.offsets) <= |kids| && forall k :: 0 <= k < |kids| ==> Holds(kids[k], ty.elem)
    ensures Holds(Entry(d, ty, kids, i), ty)
  {
    match d {
      case Bits(_) =>
      case Fixed(_, cells) => CellHolds(cells[i], ty);
      case Varying(_, o, bytes) => OctetsCut(bytes, At(o, i), Gap(o, i, 1));
      case Nested(o, _) => AscendingAt(o, i, i + 1);
    }
  }

  lemma OctetsCut(s: seq<nat>, start: nat, len: nat)
    requires Octets(s)
    ensures Octets(Cut(s, start, len))
  {
  }

  lemma CellHolds(c: Cell, ty: DataType)
    requires CellOk(c, ty) && ValidType(ty)
    ensures Holds(CellValue(c, ty), ty)
  {
    if ty.DecimalType? { PrecisionWithinI128(c.n, ty.precision); }
  }

  // ── Slicing ────────────────────────────────────────────────────────────────
  // The source panics on a range past the end; these functions then give some value, and every
  // statement below is about ranges within the column.

  function Cut<T>(s: seq<T>, start: nat, len: nat): (r: seq<T>)
  {
    if start + len <= |s| then s[start..start + len] else []
  }

  function At(o: seq<nat>, i: nat): nat
  {
    if i < |o| then o[i] else 0
  }

  /** The payload between two offsets. */
  function Gap(o: seq<nat>, start: nat, len: nat): nat
  {
    if At(o, start) <= At(o, start + len) then At(o, start + len) - At(o, start) else 0
  }

  /** `rebase_offsets`. */
  function Rebase(o: seq<nat>, start: nat, len: nat): (r: seq<nat>)
    ensures |r| == len + 1 && forall i :: 0 <= i <= len ==> r[i] == Gap(o, start, i)
  {
    seq(len + 1, i requires 0 <= i <= len => Gap(o, start, i))
  }

  /** The payload of `len` rows from `start`. */
  function Span<T>(o: seq<nat>, payload: seq<T>, start: nat, len: nat): seq<T>
  {
    Cut(payload, At(o, start), Gap(o, start, len))
  }

  function CutValidity(validity: Option<seq<bool>>, start: nat, len: nat): Option<seq<bool>>
  {
    if validity.None? then None else Some(Cut(validity.value, start, len))
  }

  function Slice(c: Column, start: nat, len: nat): Column
  {
    var validity := CutValidity(c.validity, start, len);
    var data := match c.data
      case Bits(b) => Bits(Cut(b, start, len))
      case Fixed(k, cells) => Fixed(k, Cut(cells, start, len))
      case Varying(k, o, bytes) => Varying(k, Rebase(o, start, len), Span(o, bytes, start, len))
      case Nested(o, child) => Nested(Rebase(o, start, len), Slice(child, At(o, start), Gap(o, start, len)));
    Column(c.ty, data, validity, Missing(validity))
  }

  lemma GapIs(o: seq<nat>, start: nat, len: nat)
    requires OffsetsOk(o) && start + len < |o|
    ensures At(o, start) + Gap(o, start, len) == At(o, start + len) <= Last(o)
  {
    AscendingAt(o, start, start + len);
  }

  lemma RebaseOk(o: seq<nat>, start: nat, len: nat)
    requires OffsetsOk(o) && start + len < |o|
    ensures OffsetsOk(Rebase(o, start, len)) && Last(Rebase(o, start, len)) == Gap(o, start, len)
  {
    var r := Rebase(o, start, len);
    forall i | 0 <= i < len ensures RisesAt(r, i) {
      GapIs(o, start, i);
      GapIs(o, start, i + 1);
      AscendingAt(o, start + i, start + i + 1);
    }
    GapIs(o, start, len);
  }

  lemma CutTwice<T>(s: seq<T>, start: nat, len: nat, from: nat, n: nat)
    requires start + len <= |s| && from + n <= len
    ensures Cut(Cut(s, start, len), from, n) == Cut(s, start + from, n)
  {
    var inner, direct := Cut(Cut(s, start, len), from, n), Cut(s, start + from, n);
    forall i | 0 <= i < n ensures inner[i] == direct[i] {
      assert s[start..start + len][from + i] == s[start + from + i];
    }
  }

  lemma SpanLen<T>(o: seq<nat>, payload: seq<T>, start: nat, len: nat)
    requires OffsetsOk(o) && Last(o) <= |payload| && start + len < |o|
    ensures |Span(o, payload, start, len)| == Gap(o, start, len)
  {
    GapIs(o, start, len);
  }

  /** Rebasing moves offsets and keeps the gaps between them. */
  lemma GapWithin(o: seq<nat>, start: nat, len: nat, from: nat, n: nat)
    requires OffsetsOk(o) && start + len < |o| && from + n <= len
    ensures At(Rebase(o, start, len), from) == Gap(o, start, from) && At(o, start) + Gap(o, start, from) == At(o, start + from)
    ensures Gap(Rebase(o, start, len), from, n) == Gap(o, start + from, n)
    ensures Gap(o, start, from) + Gap(o, start + from, n) <= Gap(o, start, len)
  {
    GapIs(o, start, from);
    GapIs(o, start, from + n);
    GapIs(o, start, len);
    GapIs(o, start + from, n);
    AscendingAt(o, start + from + n, start + len);
  }

  /** The payload of rows is the same before and after rebasing. */
  lemma SpanOfSpan<T>(o: seq<nat>, payload: seq<T>, start: nat, len: nat, from: nat, n: nat)
    requires OffsetsOk(o) && Last(o) <= |payload| && start + len < |o| && from + n <= len
    ensures Span(Rebase(o, start, len), Span(o, payload, start, len), from, n) == Span(o, payload, start + from, n)
  {
    GapWithin(o, start, len, from, n);
    GapIs(o, start, len);
    CutTwice(payload, At(o, start), Gap(o, start, len), Gap(o, start, from), Gap(o, start + from, n));
  }

  ghost predicate SlicedAs(c: Column, start: nat, len: nat, s: Column)
    requires Readable(c) && start + len <= Len(c)
  {
    Valid(s) && Len(s) == len && Rows(s) == Rows(c)[start..start + len]
  }

  lemma FixedSlice(c: Column, start: nat, len: nat)
    requires Readable(c) && start + len <= Len(c) && (c.data.Fixed? || c.data.Bits?)
    ensures SlicedAs(c, start, len, Slice(c, start, len))
  {
    var s := Slice(c, start, len);
    forall i | 0 <= i < len ensures Rows(s)[i] == Rows(c)[start + i] {
      GetIsEntry(s, i);
      GetIsEntry(c, start + i);
    }
  }

  lemma VaryingSliceOk(c: Column, start: nat, len: nat)
    requires Readable(c) && start + len <= Len(c) && c.data.Varying?
    ensures Valid(Slice(c, start, len))
  {
    var o, bytes := c.data.offsets, c.data.bytes;
    var r, part := Rebase(o, start, len), Span(o, bytes, start, len);
    RebaseOk(o, start, len);
    forall i | 0 <= i < len ensures Span(r, part, i, 1) == Span(o, bytes, start + i, 1) {
      SpanOfSpan(o, bytes, start, len, i, 1);
    }
    SpanLen(o, bytes, start, len);
    assert DataOk(Varying(c.data.kind, r, part), c.ty);
  }

  lemma VaryingSlice(c: Column, start: nat, len: nat)
    requires Readable(c) && start + len <= Len(c) && c.data.Varying?
    ensures SlicedAs(c, start, len, Slice(c, start, len))
  {
    var s := Slice(c, start, len);
    VaryingSliceOk(c, start, len);
    forall i | 0 <= i < len ensures Rows(s)[i] == Rows(c)[start + i] {
      SpanOfSpan(c.data.offsets, c.data.bytes, start, len, i, 1);
      GetIsEntry(s, i);
      GetIsEntry(c, start + i);
    }
  }

  /** The child rows behind `len` rows from `start`. */
  lemma ChildRange(c: Column, start: nat, len: nat) returns (first: nat, n: nat)
    requires Shaped(c) && start + len <= Len(c) && c.data.Nested?
    ensures Shaped(c.data.child) && first + n <= Len(c.data.child)
    ensures first == c.data.offsets[start] && first + n == c.data.offsets[start + len]
    ensures Slice(c, start, len).data.child == Slice(c.data.child, first, n)
  {
    var o := c.data.offsets;
    AscendingAt(o, start, start + len);
    first, n := o[start], o[start + len] - o[start];
  }

  /** A LIST column whose child holds exactly the payload of `len` rows of `c` from `start`. */
  ghost predicate NestedCut(c: Column, start: nat, len: nat, s: Column)
    requires Readable(c) && start + len <= Len(c) && c.data.Nested?
  {
    && s.ty == c.ty && s.data.Nested? && s.validity == CutValidity(c.validity, start, len) && s.nullCount == Missing(s.validity)
    && s.data.offsets == Rebase(c.data.offsets, start, len) && Valid(s.data.child) && s.data.child.ty == c.ty.elem
    && Rows(s.data.child) == Span(c.data.offsets, Rows(c.data.child), start, len)
  }

  lemma NestedCutRow(c: Column, start: nat, len: nat, s: Column, i: nat)
    requires Readable(c) && start + len <= Len(c) && c.data.Nested? && NestedCut(c, start, len, s) && Valid(s) && i < len
    ensures Len(s) == len && Get(s, i) == Get(c, start + i)
  {
    SpanOfSpan(c.data.offsets, Rows(c.data.child), start, len, i, 1);
    GetIsEntry(s, i);
    GetIsEntry(c, start + i);
  }

  lemma NestedCutReads(c: Column, start: nat, len: nat, s: Column)
    requires Readable(c) && start + len <= Len(c) && c.data.Nested? && NestedCut(c, start, len, s)
    ensures SlicedAs(c, start, len, s)
  {
    RebaseOk(c.data.offsets, start, len);
    SpanLen(c.data.offsets, Rows(c.data.child), start, len);
    assert Valid(s) && Len(s) == len;
    forall i | 0 <= i < len ensures Rows(s)[i] == Rows(c)[start + i] {
      NestedCutRow(c, start, len, s, i);
    }
  }

  lemma NestedSlice(c: Column, start: nat, len: nat, first: nat, n: nat)
    requires Readable(c) && start + len <= Len(c) && c.data.Nested?
    requires Readable(c.data.child) && first + n <= Len(c.data.child)
    requires first == c.data.offsets[start] && first + n == c.data.offsets[start + len]
    requires Slice(c, start, len).data.child == Slice(c.data.child, first, n)
    requires SlicedAs(c.data.child, first, n, Slice(c.data.child, first, n))
    ensures SlicedAs(c, start, len, Slice(c, start, len))
  {
    assert NestedCut(c, start, len, Slice(c, start, len));
    NestedCutReads(c, start, len, Slice(c, start, len));
  }

  /** A slice is a valid column of the subsequence. */
  lemma {:induction false} SliceReads(c: Column, start: nat, len: nat)
    requires Readable(c) && start + len <= Len(c)
    ensures SlicedAs(c, start, len, Slice(c, start, len))
    decreases c
  {
    if c.data.Nested? {
      var first, n := ChildRange(c, start, len);
      SliceReads(c.data.child, first, n);
      NestedSlice(c, start, len, first, n);
    } else if c.data.Varying? {
      VaryingSlice(c, start, len);
    } else {
      FixedSlice(c, start, len);
    }
  }
}
