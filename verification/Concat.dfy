/** Concatenating columns (src/exec/column.rs): appending rows, and undoing any cut. */
module Concat {
  import opened Options
  import opened Order
  import opened Fit
  import opened Columns

  function Tail(o: seq<nat>): seq<nat>
  {
    if o == [] then [] else o[1..]
  }

  function Shift(o: seq<nat>, base: nat): (r: seq<nat>)
    ensures |r| == |o| && forall i :: 0 <= i < |o| ==> r[i] == base + o[i]
  {
    seq(|o|, i requires 0 <= i < |o| => base + o[i])
  }

  /** The second column's offsets, moved past the first column's payload. */
  function AppendOffsets(a: seq<nat>, b: seq<nat>): seq<nat>
  {
    a + Shift(Tail(b), Last(a))
  }

  /** A missing bitmap stands for all-valid rows. */
  function Marks(validity: Option<seq<bool>>, n: nat): seq<bool>
  {
    if validity.None? then AllTrue(n) else validity.value
  }

  function AppendValidity(a: Option<seq<bool>>, m: nat, b: Option<seq<bool>>, n: nat): Option<seq<bool>>
  {
    if a.None? && b.None? then None else Some(Marks(a, m) + Marks(b, n))
  }

  /** One column after another; `None` when the layouts differ or an offset passes `u32::MAX`. */
  function Append(a: Column, c: Column): Option<Column>
    decreases c
  {
    var validity := AppendValidity(a.validity, Len(a), c.validity, Len(c));
    match (a.data, c.data)
    case (Bits(x), Bits(y)) => Some(Column(a.ty, Bits(x + y), validity, Missing(validity)))
    case (Fixed(k, x), Fixed(l, y)) =>
      if k == l then Some(Column(a.ty, Fixed(k, x + y), validity, Missing(validity))) else None
    case (Varying(k, o, x), Varying(l, p, y)) =>
      if k == l && Last(o) + Last(p) <= U32Max
      then Some(Column(a.ty, Varying(k, AppendOffsets(o, p), x + y), validity, Missing(validity)))
      else None
    case (Nested(o, x), Nested(p, y)) =>
      var kid := Append(x, y);
      if kid.Some? && Last(o) + Last(p) <= U32Max
      then Some(Column(a.ty, Nested(AppendOffsets(o, p), kid.value), validity, Missing(validity)))
      else None
    case _ => None
  }

  function Empty(ty: DataType): Column
  {
    var data := match ty
      case BoolType => Bits([])
      case StringType => Varying(TString, [0], [])
      case BytesType => Varying(TBytes, [0], [])
      case ListType(e) => Nested([0], Empty(e))
      case _ => Fixed(Kind(ty), []);
    Column(ty, data, None, 0)
  }

  lemma {:induction false} EmptyIsValid(ty: DataType)
    requires ValidType(ty)
    ensures Valid(Empty(ty)) && Rows(Empty(ty)) == []
  {
    if ty.ListType? { EmptyIsValid(ty.elem); }
  }

  // ── Append is append ───────────────────────────────────────────────────────

  lemma AppendOffsetsAt(a: seq<nat>, b: seq<nat>, i: nat)
    requires |a| >= 1 && |b| >= 1 && b[0] == 0 && i < |a| + |b| - 1
    ensures |AppendOffsets(a, b)| == |a| + |b| - 1
    ensures i < |a| ==> AppendOffsets(a, b)[i] == a[i]
    ensures i >= |a| - 1 ==> AppendOffsets(a, b)[i] == Last(a) + b[i - (|a| - 1)]
  {
  }

  lemma AppendOffsetsOk(a: seq<nat>, b: seq<nat>)
    requires OffsetsOk(a) && OffsetsOk(b) && Last(a) + Last(b) <= U32Max
    ensures OffsetsOk(AppendOffsets(a, b)) && Last(AppendOffsets(a, b)) == Last(a) + Last(b)
    ensures |AppendOffsets(a, b)| == |a| + |b| - 1
  {
    var r := AppendOffsets(a, b);
    forall i | 0 <= i < |r| - 1 ensures RisesAt(r, i) {
      AppendOffsetsAt(a, b, i);
      AppendOffsetsAt(a, b, i + 1);
      if i < |a| - 1 { AscendingAt(a, i, i + 1); } else { AscendingAt(b, i + 1 - |a|, i + 2 - |a|); }
    }
  }

  /** A row of the first part keeps its payload; one of the second is found past it. */
  lemma SpanOfAppend<T>(a: seq<nat>, x: seq<T>, b: seq<nat>, y: seq<T>, i: nat)
    requires OffsetsOk(a) && OffsetsOk(b) && Last(a) == |x| && Last(b) == |y| && i < |a| + |b| - 2
    ensures Span(AppendOffsets(a, b), x + y, i, 1) == if i < |a| - 1 then Span(a, x, i, 1) else Span(b, y, i - (|a| - 1), 1)
  {
    if i < |a| - 1 { FirstSpan(a, x, b, y, i); } else { SecondSpan(a, x, b, y, i - (|a| - 1)); }
  }

  lemma FirstSpan<T>(a: seq<nat>, x: seq<T>, b: seq<nat>, y: seq<T>, i: nat)
    requires OffsetsOk(a) && OffsetsOk(b) && Last(a) == |x| && i < |a| - 1
    ensures Span(AppendOffsets(a, b), x + y, i, 1) == Span(a, x, i, 1)
  {
    AppendOffsetsAt(a, b, i);
    AppendOffsetsAt(a, b, i + 1);
    GapIs(a, i, 1);
    CutOfAppend(x, y, a[i], Gap(a, i, 1));
  }

  lemma SecondSpan<T>(a: seq<nat>, x: seq<T>, b: seq<nat>, y: seq<T>, j: nat)
    requires OffsetsOk(a) && OffsetsOk(b) && Last(a) == |x| && Last(b) == |y| && j < |b| - 1
    ensures Span(AppendOffsets(a, b), x + y, |a| - 1 + j, 1) == Span(b, y, j, 1)
  {
    var r := AppendOffsets(a, b);
    GapIs(b, j, 1);
    AppendOffsetsAt(a, b, |a| - 1 + j);
    AppendOffsetsAt(a, b, |a| + j);
    assert At(r, |a| - 1 + j) == |x| + b[j] && Gap(r, |a| - 1 + j, 1) == Gap(b, j, 1);
    CutOfAppend(x, y, b[j], Gap(b, j, 1));
  }

  lemma CutOfAppend<T>(x: seq<T>, y: seq<T>, start: nat, len: nat)
    ensures start + len <= |x| ==> Cut(x + y, start, len) == Cut(x, start, len)
    ensures start + len <= |y| ==> Cut(x + y, |x| + start, len) == Cut(y, start, len)
  {
  }

  ghost predicate Appended(a: Column, c: Column, r: Column)
    requires Readable(a) && Readable(c)
  {
    Valid(r) && r.ty == a.ty && Rows(r) == Rows(a) + Rows(c)
  }

  lemma {:induction false} AppendedNull(a: Column, c: Column, r: Column, i: nat)
    requires Readable(a) && Readable(c) && i < Len(a) + Len(c)
    requires r.validity == AppendValidity(a.validity, Len(a), c.validity, Len(c))
    ensures IsNull(r, i) <==> if i < Len(a) then IsNull(a, i) else IsNull(c, i - Len(a))
  {
  }

  ghost predicate AppendedAt(a: Column, c: Column, r: Column, i: nat)
    requires Readable(a) && Readable(c) && Readable(r) && Len(r) == Len(a) + Len(c)
  {
    i < Len(r) ==> Get(r, i) == if i < Len(a) then Get(a, i) else Get(c, i - Len(a))
  }

  lemma {:induction false} AppendedRows(a: Column, c: Column, r: Column)
    requires Readable(a) && Readable(c) && Valid(r) && r.ty == a.ty && Len(r) == Len(a) + Len(c)
    requires forall i :: 0 <= i < Len(r) ==> AppendedAt(a, c, r, i)
    ensures Appended(a, c, r)
  {
    forall i | 0 <= i < Len(r) ensures Rows(r)[i] == (Rows(a) + Rows(c))[i] { assert AppendedAt(a, c, r, i); }
  }

  lemma {:induction false} AppendFixedRow(a: Column, c: Column, r: Column, i: nat)
    requires Valid(a) && Valid(c) && a.ty == c.ty && (a.data.Fixed? || a.data.Bits?) && Append(a, c) == Some(r)
    requires Valid(r) && Len(r) == Len(a) + Len(c) && i < Len(r)
    ensures AppendedAt(a, c, r, i)
  {
    AppendedNull(a, c, r, i);
    GetIsEntry(r, i);
    if i < Len(a) { GetIsEntry(a, i); } else { GetIsEntry(c, i - Len(a)); }
  }

  lemma {:induction false} AppendFixed(a: Column, c: Column)
    requires Valid(a) && Valid(c) && a.ty == c.ty && (a.data.Fixed? || a.data.Bits?)
    ensures Append(a, c).Some? && Appended(a, c, Append(a, c).value)
  {
    var r := Append(a, c).value;
    assert Valid(r) && Len(r) == Len(a) + Len(c);
    forall i | 0 <= i < Len(r) ensures AppendedAt(a, c, r, i) { AppendFixedRow(a, c, r, i); }
    AppendedRows(a, c, r);
  }

  lemma {:induction false} AppendVaryingOk(a: Column, c: Column)
    requires Valid(a) && Valid(c) && a.ty == c.ty && a.data.Varying? && Append(a, c).Some?
    ensures var r := Append(a, c).value; Valid(r) && Len(r) == Len(a) + Len(c)
  {
    var o, p, x, y := a.data.offsets, c.data.offsets, a.data.bytes, c.data.bytes;
    AppendOffsetsOk(o, p);
    if a.ty.StringType? {
      forall i | 0 <= i < |o| + |p| - 2 ensures Utf8(Span(AppendOffsets(o, p), x + y, i, 1)) {
        SpanOfAppend(o, x, p, y, i);
      }
    }
  }

  lemma {:induction false} AppendVaryingRow(a: Column, c: Column, r: Column, i: nat)
    requires Valid(a) && Valid(c) && a.data.Varying? && c.data.Varying? && Valid(r) && r.data.Varying? && r.ty == a.ty == c.ty
    requires r.validity == AppendValidity(a.validity, Len(a), c.validity, Len(c)) && Len(r) == Len(a) + Len(c)
    requires r.data.offsets == AppendOffsets(a.data.offsets, c.data.offsets) && r.data.bytes == a.data.bytes + c.data.bytes
    requires i < Len(r)
    ensures Get(r, i) == if i < Len(a) then Get(a, i) else Get(c, i - Len(a))
  {
    AppendedNull(a, c, r, i);
    SpanOfAppend(a.data.offsets, a.data.bytes, c.data.offsets, c.data.bytes, i);
    GetIsEntry(r, i);
    if i < Len(a) { GetIsEntry(a, i); } else { GetIsEntry(c, i - Len(a)); }
  }

  lemma {:induction false} AppendVarying(a: Column, c: Column)
    requires Valid(a) && Valid(c) && a.ty == c.ty && a.data.Varying? && Append(a, c).Some?
    ensures Appended(a, c, Append(a, c).value)
  {
    var r := Append(a, c).value;
    AppendVaryingOk(a, c);
    forall i | 0 <= i < Len(r) ensures AppendedAt(a, c, r, i) { AppendVaryingRow(a, c, r, i); }
    AppendedRows(a, c, r);
  }

  lemma {:induction false} AppendNestedOk(a: Column, c: Column)
    requires Valid(a) && Valid(c) && a.ty == c.ty && a.data.Nested? && Append(a, c).Some?
    requires Appended(a.data.child, c.data.child, Append(a.data.child, c.data.child).value)
    ensures var r := Append(a, c).value; Valid(r) && Len(r) == Len(a) + Len(c)
  {
    AppendOffsetsOk(a.data.offsets, c.data.offsets);
  }

  /** A LIST row by its offsets. */
  function ListRow(missing: bool, o: seq<nat>, kids: seq<Value>, i: nat): Value
  {
    if missing then Null else List(Span(o, kids, i, 1))
  }

  lemma ListRowOfAppend(missing: bool, o: seq<nat>, x: seq<Value>, p: seq<nat>, y: seq<Value>, i: nat)
    requires OffsetsOk(o) && OffsetsOk(p) && Last(o) == |x| && Last(p) == |y| && i < |o| + |p| - 2
    ensures ListRow(missing, AppendOffsets(o, p), x + y, i) ==
              if i < |o| - 1 then ListRow(missing, o, x, i) else ListRow(missing, p, y, i - (|o| - 1))
  {
    SpanOfAppend(o, x, p, y, i);
  }

  lemma {:induction false} NestedGet(c: Column, i: nat)
    requires Readable(c) && c.data.Nested? && i < Len(c)
    ensures Get(c, i) == ListRow(IsNull(c, i), c.data.offsets, Rows(c.data.child), i)
  {
    GetIsEntry(c, i);
  }

  lemma {:induction false} NestedOffsets(c: Column)
    requires Valid(c) && c.data.Nested?
    ensures OffsetsOk(c.data.offsets) && Last(c.data.offsets) == |Rows(c.data.child)| && Len(c) == |c.data.offsets| - 1
  {
  }

  lemma {:induction false} AppendNestedRow(a: Column, c: Column, r: Column, i: nat)
    requires Valid(a) && Valid(c) && a.data.Nested? && c.data.Nested? && Valid(r) && r.data.Nested? && r.ty == a.ty == c.ty
    requires r.validity == AppendValidity(a.validity, Len(a), c.validity, Len(c)) && Len(r) == Len(a) + Len(c)
    requires r.data.offsets == AppendOffsets(a.data.offsets, c.data.offsets)
    requires Rows(r.data.child) == Rows(a.data.child) + Rows(c.data.child) && i < Len(r)
    ensures Get(r, i) == if i < Len(a) then Get(a, i) else Get(c, i - Len(a))
  {
    AppendedNull(a, c, r, i);
    NestedOffsets(a);
    NestedOffsets(c);
    NestedGet(r, i);
    ListRowOfAppend(IsNull(r, i), a.data.offsets, Rows(a.data.child), c.data.offsets, Rows(c.data.child), i);
    if i < Len(a) { NestedGet(a, i); } else { NestedGet(c, i - Len(a)); }
  }

  lemma {:induction false} AppendNested(a: Column, c: Column)
    requires Valid(a) && Valid(c) && a.ty == c.ty && a.data.Nested? && Append(a, c).Some?
    requires Appended(a.data.child, c.data.child, Append(a.data.child, c.data.child).value)
    ensures Appended(a, c, Append(a, c).value)
  {
    var r := Append(a, c).value;
    AppendNestedOk(a, c);
    forall i | 0 <= i < Len(r) ensures AppendedAt(a, c, r, i) { AppendNestedRow(a, c, r, i); }
    AppendedRows(a, c, r);
  }

  /** Appending columns of one type appends their rows. */
  lemma {:induction false} AppendReads(a: Column, c: Column)
    requires Valid(a) && Valid(c) && a.ty == c.ty && Append(a, c).Some?
    ensures Appended(a, c, Append(a, c).value)
    decreases c
  {
    if a.data.Nested? {
      AppendReads(a.data.child, c.data.child);
      AppendNested(a, c);
    } else if a.data.Varying? {
      AppendVarying(a, c);
    } else {
      AppendFixed(a, c);
    }
  }

  // ── Cuts ───────────────────────────────────────────────────────────────────

  lemma AppendToNoOffsets(o: seq<nat>)
    requires |o| >= 1 && o[0] == 0
    ensures AppendOffsets([0], o) == o
  {
  }

  lemma AppendToNoRows(validity: Option<seq<bool>>, n: nat)
    requires validity.Some? ==> |validity.value| == n
    ensures AppendValidity(None, 0, validity, n) == validity
  {
    if validity.Some? { assert AllTrue(0) + validity.value == validity.value; }
  }

  lemma AppendToEmptyFlat(c: Column)
    requires Valid(c) && !c.data.Nested?
    ensures Append(Empty(c.ty), c) == Some(c)
  {
    AppendToNoRows(c.validity, Len(c));
    match c.data {
      case Bits(b) => assert [] + b == b;
      case Fixed(_, cells) => assert [] + cells == cells;
      case Varying(_, o, bytes) => AppendToNoOffsets(o); assert [] + bytes == bytes;
    }
  }

  lemma AppendToEmptyNested(c: Column)
    requires Valid(c) && c.data.Nested? && Append(Empty(c.data.child.ty), c.data.child) == Some(c.data.child)
    ensures Append(Empty(c.ty), c) == Some(c)
  {
    AppendToNoRows(c.validity, Len(c));
    AppendToNoOffsets(c.data.offsets);
  }

  lemma {:induction false} AppendToEmpty(c: Column)
    requires Valid(c)
    ensures Append(Empty(c.ty), c) == Some(c)
    decreases c
  {
    if c.data.Nested? {
      AppendToEmpty(c.data.child);
      AppendToEmptyNested(c);
    } else {
      AppendToEmptyFlat(c);
    }
  }

  lemma AppendRebased(o: seq<nat>, start: nat, m: nat, n: nat)
    requires OffsetsOk(o) && start + m + n < |o|
    ensures AppendOffsets(Rebase(o, start, m), Rebase(o, start + m, n)) == Rebase(o, start, m + n)
    ensures Last(Rebase(o, start, m)) + Last(Rebase(o, start + m, n)) <= U32Max
  {
    var left, right, whole := Rebase(o, start, m), Rebase(o, start + m, n), Rebase(o, start, m + n);
    GapIs(o, start, m);
    GapIs(o, start + m, n);
    forall i | 0 <= i <= m + n ensures AppendOffsets(left, right)[i] == whole[i] {
      if i > m {
        assert Tail(right)[i - m - 1] == right[i - m];
        GapIs(o, start, i);
        GapIs(o, start + m, i - m);
      }
    }
  }

  lemma AppendCuts<T>(s: seq<T>, start: nat, m: nat, n: nat)
    requires start + m + n <= |s|
    ensures Cut(s, start, m) + Cut(s, start + m, n) == Cut(s, start, m + n)
  {
  }

  lemma AppendValiditySlices(c: Column, start: nat, m: nat, n: nat)
    requires Shaped(c) && start + m + n <= Len(c)
    ensures AppendValidity(CutValidity(c.validity, start, m), m, CutValidity(c.validity, start + m, n), n) == CutValidity(c.validity, start, m + n)
  {
    if c.validity.Some? { AppendCuts(c.validity.value, start, m, n); }
  }

  lemma SliceLen(c: Column, start: nat, len: nat)
    requires Shaped(c) && start + len <= Len(c)
    ensures Len(Slice(c, start, len)) == len
  {
  }

  lemma AppendSpans<T>(o: seq<nat>, x: seq<T>, start: nat, m: nat, n: nat)
    requires OffsetsOk(o) && Last(o) <= |x| && start + m + n < |o|
    ensures Span(o, x, start, m) + Span(o, x, start + m, n) == Span(o, x, start, m + n)
  {
    GapsJoin(o, start, m, n);
    var f, g, h := At(o, start), Gap(o, start, m), Gap(o, start + m, n);
    assert Span(o, x, start, m) == Cut(x, f, g);
    assert Span(o, x, start + m, n) == Cut(x, f + g, h);
    assert Span(o, x, start, m + n) == Cut(x, f, g + h);
    AppendCuts(x, f, g, h);
  }

  lemma GapsJoin(o: seq<nat>, start: nat, m: nat, n: nat)
    requires OffsetsOk(o) && start + m + n < |o|
    ensures At(o, start) + Gap(o, start, m) == At(o, start + m)
    ensures Gap(o, start, m) + Gap(o, start + m, n) == Gap(o, start, m + n)
    ensures At(o, start) + Gap(o, start, m + n) <= Last(o)
  {
    GapIs(o, start, m);
    GapIs(o, start + m, n);
    GapIs(o, start, m + n);
  }

  /** The child slices behind two neighbouring slices. */
  lemma ChildGaps(c: Column, start: nat, m: nat, n: nat) returns (f: nat, fm: nat, fn: nat)
    requires Shaped(c) && start + m + n <= Len(c) && c.data.Nested?
    ensures Shaped(c.data.child) && f + fm + fn <= Len(c.data.child)
    ensures Slice(c, start, m).data.child == Slice(c.data.child, f, fm)
    ensures Slice(c, start + m, n).data.child == Slice(c.data.child, f + fm, fn)
    ensures Slice(c, start, m + n).data.child == Slice(c.data.child, f, fm + fn)
  {
    var o := c.data.offsets;
    GapsJoin(o, start, m, n);
    f, fm, fn := At(o, start), Gap(o, start, m), Gap(o, start + m, n);
  }

  lemma AppendNestedSlices(c: Column, start: nat, m: nat, n: nat)
    requires Shaped(c) && start + m + n <= Len(c) && c.data.Nested?
    requires Append(Slice(c, start, m).data.child, Slice(c, start + m, n).data.child) == Some(Slice(c, start, m + n).data.child)
    ensures Append(Slice(c, start, m), Slice(c, start + m, n)) == Some(Slice(c, start, m + n))
  {
    AppendValiditySlices(c, start, m, n);
    AppendRebased(c.data.offsets, start, m, n);
  }

  lemma AppendFlatSlices(c: Column, start: nat, m: nat, n: nat)
    requires Shaped(c) && start + m + n <= Len(c) && !c.data.Nested?
    ensures Append(Slice(c, start, m), Slice(c, start + m, n)) == Some(Slice(c, start, m + n))
  {
    SliceLen(c, start, m);
    SliceLen(c, start + m, n);
    AppendValiditySlices(c, start, m, n);
    match c.data {
      case Bits(b) => AppendCuts(b, start, m, n);
      case Fixed(_, cells) => AppendCuts(cells, start, m, n);
      case Varying(_, o, bytes) => AppendRebased(o, start, m, n); AppendSpans(o, bytes, start, m, n);
    }
  }

  /** Neighbouring slices join to the slice over both, buffer for buffer. */
  lemma {:induction false} AppendSlices(c: Column, start: nat, m: nat, n: nat)
    requires Shaped(c) && start + m + n <= Len(c)
    ensures Append(Slice(c, start, m), Slice(c, start + m, n)) == Some(Slice(c, start, m + n))
    decreases c
  {
    if c.data.Nested? {
      var f, fm, fn := ChildGaps(c, start, m, n);
      AppendSlices(c.data.child, f, fm, fn);
      AppendNestedSlices(c, start, m, n);
    } else {
      AppendFlatSlices(c, start, m, n);
    }
  }

  lemma WholeOffsets(o: seq<nat>)
    requires OffsetsOk(o)
    ensures Rebase(o, 0, |o| - 1) == o && At(o, 0) == 0 && Gap(o, 0, |o| - 1) == Last(o)
  {
  }

  lemma SliceWholeFlat(c: Column)
    requires Shaped(c) && !c.data.Nested?
    ensures Slice(c, 0, Len(c)) == c
  {
    if c.validity.Some? { assert Cut(c.validity.value, 0, Len(c)) == c.validity.value; }
    match c.data {
      case Bits(b) => assert Cut(b, 0, Len(c)) == b;
      case Fixed(_, cells) => assert Cut(cells, 0, Len(c)) == cells;
      case Varying(_, o, bytes) => WholeOffsets(o); assert Cut(bytes, 0, Last(o)) == bytes;
    }
  }

  lemma {:induction false} SliceWhole(c: Column)
    requires Shaped(c) && Tight(c)
    ensures Slice(c, 0, Len(c)) == c
    decreases c
  {
    if c.data.Nested? {
      if c.validity.Some? { assert Cut(c.validity.value, 0, Len(c)) == c.validity.value; }
      WholeOffsets(c.data.offsets);
      SliceWhole(c.data.child);
    } else {
      SliceWholeFlat(c);
    }
  }

  lemma RebaseTwice(o: seq<nat>, start: nat, len: nat, from: nat, n: nat)
    requires OffsetsOk(o) && start + len < |o| && from + n <= len
    ensures Rebase(Rebase(o, start, len), from, n) == Rebase(o, start + from, n)
  {
    forall i | 0 <= i <= n ensures Gap(Rebase(o, start, len), from, i) == Gap(o, start + from, i) {
      GapWithin(o, start, len, from, i);
    }
  }

  /** A slice of a slice is a slice. */
  lemma {:induction false} SliceOfSlice(c: Column, start: nat, len: nat, from: nat, n: nat)
    requires Shaped(c) && start + len <= Len(c) && from + n <= len
    ensures Slice(Slice(c, start, len), from, n) == Slice(c, start + from, n)
    decreases c
  {
    if c.data.Nested? {
      var o := c.data.offsets;
      GapWithin(o, start, len, from, n);
      GapIs(o, start, len);
      SliceOfSlice(c.data.child, At(o, start), Gap(o, start, len), Gap(o, start, from), Gap(o, start + from, n));
      NestedTwice(c, start, len, from, n);
    } else {
      FlatTwice(c, start, len, from, n);
    }
  }

  lemma {:induction false} FlatTwice(c: Column, start: nat, len: nat, from: nat, n: nat)
    requires Shaped(c) && start + len <= Len(c) && from + n <= len && !c.data.Nested?
    ensures Slice(Slice(c, start, len), from, n) == Slice(c, start + from, n)
  {
    if c.validity.Some? { CutTwice(c.validity.value, start, len, from, n); }
    match c.data {
      case Bits(b) => CutTwice(b, start, len, from, n);
      case Fixed(_, cells) => CutTwice(cells, start, len, from, n);
      case Varying(_, o, bytes) => RebaseTwice(o, start, len, from, n); SpanOfSpan(o, bytes, start, len, from, n);
    }
  }

  lemma {:induction false} NestedTwice(c: Column, start: nat, len: nat, from: nat, n: nat)
    requires Shaped(c) && start + len <= Len(c) && from + n <= len && c.data.Nested?
    requires var o, kid := c.data.offsets, c.data.child;
             Slice(Slice(kid, At(o, start), Gap(o, start, len)), Gap(o, start, from), Gap(o, start + from, n)) ==
             Slice(kid, At(o, start) + Gap(o, start, from), Gap(o, start + from, n))
    ensures Slice(Slice(c, start, len), from, n) == Slice(c, start + from, n)
  {
    var o := c.data.offsets;
    if c.validity.Some? { CutTwice(c.validity.value, start, len, from, n); }
    RebaseTwice(o, start, len, from, n);
    GapWithin(o, start, len, from, n);
    GapIs(o, start, len);
  }

  // ── Any number of columns ──────────────────────────────────────────────────

  /** Joining the parts one after another to a start, as long as every join succeeds. */
  function JoinAll<T>(join: (T, T) -> Option<T>, start: T, parts: seq<T>): Option<T>
  {
    if parts == [] then Some(start)
    else
      var before := JoinAll(join, start, parts[..|parts| - 1]);
      if before.None? then None else join(before.value, parts[|parts| - 1])
  }

  /** Appending the columns one after another to an empty one. */
  function ConcatAll(ty: DataType, cols: seq<Column>): Option<Column>
  {
    JoinAll(Append, Empty(ty), cols)
  }

  ghost predicate ColumnsOf(ty: DataType, cols: seq<Column>)
  {
    forall i :: 0 <= i < |cols| ==> Valid(cols[i]) && cols[i].ty == ty
  }

  ghost function AllRows(cols: seq<Column>): seq<Value>
    requires forall i :: 0 <= i < |cols| ==> Readable(cols[i])
  {
    if cols == [] then [] else AllRows(cols[..|cols| - 1]) + Rows(cols[|cols| - 1])
  }

  /** Concatenation of columns of one type is concatenation of their rows. */
  lemma {:induction false} ConcatReads(ty: DataType, cols: seq<Column>)
    requires ValidType(ty) && ColumnsOf(ty, cols) && ConcatAll(ty, cols).Some?
    ensures var r := ConcatAll(ty, cols).value; Valid(r) && r.ty == ty && Rows(r) == AllRows(cols)
  {
    if cols == [] {
      EmptyIsValid(ty);
    } else {
      var init := cols[..|cols| - 1];
      ConcatReads(ty, init);
      AppendReads(ConcatAll(ty, init).value, cols[|cols| - 1]);
    }
  }

  ghost predicate Cuts(cuts: seq<nat>, len: nat)
  {
    |cuts| >= 2 && cuts[0] == 0 && cuts[|cuts| - 1] == len && Ascending(cuts)
  }

  /** The first `k` of the stretches between the cuts. */
  function Stretches<T>(piece: (nat, nat) -> T, cuts: seq<nat>, k: nat): seq<T>
  {
    if k == 0 then [] else Stretches(piece, cuts, k - 1) + [piece(At(cuts, k - 1), Gap(cuts, k - 1, 1))]
  }

  lemma JoinSnoc<T>(join: (T, T) -> Option<T>, start: T, parts: seq<T>, last: T)
    ensures JoinAll(join, start, parts + [last]) ==
              if JoinAll(join, start, parts).None? then None else join(JoinAll(join, start, parts).value, last)
  {
    assert (parts + [last])[..|parts|] == parts;
  }

  ghost predicate JoinsAt<T(!new)>(join: (T, T) -> Option<T>, piece: (nat, nat) -> T, m: nat, n: nat)
  {
    join(piece(0, m), piece(m, n)) == Some(piece(0, m + n))
  }

  ghost predicate Joins<T(!new)>(join: (T, T) -> Option<T>, piece: (nat, nat) -> T, len: nat)
  {
    forall m: nat, n: nat :: m + n <= len ==> JoinsAt(join, piece, m, n)
  }

  /** If neighbouring stretches always join, so do any number of them. */
  lemma {:induction false} StretchesJoin<T(!new)>(
    join: (T, T) -> Option<T>, start: T, piece: (nat, nat) -> T, len: nat, cuts: seq<nat>, k: nat)
    requires Cuts(cuts, len) && 1 <= k < |cuts|
    requires join(start, piece(0, cuts[1])) == Some(piece(0, cuts[1]))
    requires Joins(join, piece, len)
    ensures JoinAll(join, start, Stretches(piece, cuts, k)) == Some(piece(0, cuts[k]))
  {
    var m, n := cuts[k - 1], Gap(cuts, k - 1, 1);
    AscendingAt(cuts, k - 1, k);
    JoinSnoc(join, start, Stretches(piece, cuts, k - 1), piece(m, n));
    if k == 1 {
      assert Stretches(piece, cuts, 0) == [];
    } else {
      StretchesJoin(join, start, piece, len, cuts, k - 1);
      assert JoinsAt(join, piece, m, n);
    }
  }

  function Slicer(c: Column): (nat, nat) -> Column
  {
    (start: nat, len: nat) => Slice(c, start, len)
  }

  /** The column cut at the given rows. */
  function Pieces(c: Column, cuts: seq<nat>): seq<Column>
    requires cuts != []
  {
    Stretches(Slicer(c), cuts, |cuts| - 1)
  }

  lemma FirstCut(c: Column, cuts: seq<nat>)
    requires Readable(c) && Cuts(cuts, Len(c))
    ensures Append(Empty(c.ty), Slice(c, 0, cuts[1])) == Some(Slice(c, 0, cuts[1]))
  {
    AscendingAt(cuts, 0, 1);
    SliceReads(c, 0, cuts[1]);
    AppendToEmpty(Slice(c, 0, cuts[1]));
  }

  lemma {:induction false} SlicesJoin(c: Column)
    requires Shaped(c)
    ensures Joins(Append, Slicer(c), Len(c))
  {
    forall m: nat, n: nat | m + n <= Len(c) ensures JoinsAt(Append, Slicer(c), m, n) {
      AppendSlices(c, 0, m, n);
    }
  }

  lemma CutsReady(c: Column, cuts: seq<nat>)
    requires Valid(c) && Cuts(cuts, Len(c))
    ensures Joins(Append, Slicer(c), Len(c)) && Slicer(c)(0, Len(c)) == c
    ensures Append(Empty(c.ty), Slicer(c)(0, cuts[1])) == Some(Slicer(c)(0, cuts[1]))
  {
    FirstCut(c, cuts);
    SlicesJoin(c);
    SliceWhole(c);
  }

  /** From the joined stretches to the concatenation of the pieces. */
  lemma PiecesJoin(c: Column, cuts: seq<nat>, k: nat)
    requires k == |cuts| - 1 && JoinAll(Append, Empty(c.ty), Stretches(Slicer(c), cuts, k)) == Some(c)
    ensures ConcatAll(c.ty, Pieces(c, cuts)) == Some(c)
  {
  }

  /** Cut a column anywhere, any number of times, and concatenate: the identical column comes
      back, with its offsets, its validity and its null count. */
  lemma CutRebuilds(c: Column, cuts: seq<nat>)
    requires Valid(c) && Cuts(cuts, Len(c))
    ensures ConcatAll(c.ty, Pieces(c, cuts)) == Some(c)
  {
    var k := |cuts| - 1;
    CutsReady(c, cuts);
    StretchesJoin(Append, Empty(c.ty), Slicer(c), Len(c), cuts, k);
    PiecesJoin(c, cuts, k);
  }
}
