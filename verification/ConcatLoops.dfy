/** `Column::concat` as the source runs it (src/exec/column.rs): validity first, then the buffers,
    and a LIST's children in one further call. It computes the same column as appending the inputs
    one after another. */
module ConcatLoops {
  import opened Options
  import opened Order
  import opened Fit
  import opened Columns
  import opened Concat

  datatype ColumnError = DoesNotFit | TooLarge | Malformed
  datatype Result<T> = Ok(value: T) | Err(error: ColumnError)

  /** The buffer is the variant the type asks for. */
  predicate HasLayout(ty: DataType, d: Data)
  {
    match d
    case Bits(_) => ty.BoolType?
    case Fixed(k, _) => k == Kind(ty) && FixedType(ty)
    case Varying(k, _, _) => k == Kind(ty) && (ty.StringType? || ty.BytesType?)
    case Nested(_, _) => ty.ListType?
  }

  ghost predicate AllLayout(ty: DataType, cols: seq<Column>)
  {
    forall i :: 0 <= i < |cols| ==> HasLayout(ty, cols[i].data)
  }

  // ── The parts of a concatenation ───────────────────────────────────────────

  function AnyMarked(cols: seq<Column>): bool
  {
    cols != [] && (AnyMarked(cols[..|cols| - 1]) || cols[|cols| - 1].validity.Some?)
  }

  function AllMarks(cols: seq<Column>): seq<bool>
  {
    if cols == [] then [] else
      var c := cols[|cols| - 1];
      AllMarks(cols[..|cols| - 1]) + Marks(c.validity, Len(c))
  }

  function JoinedValidity(cols: seq<Column>): Option<seq<bool>>
  {
    if AnyMarked(cols) then Some(AllMarks(cols)) else None
  }

  function OffsetsOf(d: Data): seq<nat>
  {
    match d
    case Varying(_, o, _) => o
    case Nested(o, _) => o
    case _ => []
  }

  function JoinOffsets(cols: seq<Column>): Option<seq<nat>>
  {
    if cols == [] then Some([0])
    else
      var before, o := JoinOffsets(cols[..|cols| - 1]), OffsetsOf(cols[|cols| - 1].data);
      if before.Some? && Last(before.value) + Last(o) <= U32Max then Some(AppendOffsets(before.value, o)) else None
  }

  function AllBytes(cols: seq<Column>): seq<nat>
  {
    if cols == [] then []
    else
      var d := cols[|cols| - 1].data;
      AllBytes(cols[..|cols| - 1]) + (if d.Varying? then d.bytes else [])
  }

  function AllCells(cols: seq<Column>): seq<Cell>
  {
    if cols == [] then []
    else
      var d := cols[|cols| - 1].data;
      AllCells(cols[..|cols| - 1]) + (if d.Fixed? then d.cells else [])
  }

  function AllBits(cols: seq<Column>): seq<bool>
  {
    if cols == [] then []
    else
      var d := cols[|cols| - 1].data;
      AllBits(cols[..|cols| - 1]) + (if d.Bits? then d.bits else [])
  }

  function Children(cols: seq<Column>): seq<Column>
  {
    if cols == [] then []
    else
      var c := cols[|cols| - 1];
      Children(cols[..|cols| - 1]) + [if c.data.Nested? then c.data.child else c]
  }

  ghost function ListBuffer(offsets: Option<seq<nat>>, child: Option<Column>): Option<Data>
  {
    if offsets.None? || child.None? then None else Some(Nested(offsets.value, child.value))
  }

  /** What the source assembles, given the child's concatenation. */
  ghost function Assembled(ty: DataType, cols: seq<Column>): Option<Data>
  {
    match ty
    case BoolType => Some(Bits(AllBits(cols)))
    case StringType => if JoinOffsets(cols).None? then None else Some(Varying(TString, JoinOffsets(cols).value, AllBytes(cols)))
    case BytesType => if JoinOffsets(cols).None? then None else Some(Varying(TBytes, JoinOffsets(cols).value, AllBytes(cols)))
    case ListType(e) =>
      ListBuffer(JoinOffsets(cols), ConcatAll(e, Children(cols)))
    case _ => Some(Fixed(Kind(ty), AllCells(cols)))
  }

  ghost predicate AllShaped(cols: seq<Column>)
  {
    forall i :: 0 <= i < |cols| ==> Shaped(cols[i])
  }

  /** `r` is what the source assembles from the columns. */
  ghost predicate FormOf(ty: DataType, cols: seq<Column>, r: Column)
  {
    && Assembled(ty, cols) == Some(r.data) && r.ty == ty && r.validity == JoinedValidity(cols)
    && r.nullCount == Missing(r.validity) && Len(r) == |AllMarks(cols)|
  }

  lemma {:induction false} UnmarkedRows(cols: seq<Column>)
    requires !AnyMarked(cols)
    ensures AllMarks(cols) == AllTrue(|AllMarks(cols)|)
  {
    if cols != [] { UnmarkedRows(cols[..|cols| - 1]); }
  }

  /** Appending one more column joins the bitmaps as the source does. */
  lemma ValidityStep(cols: seq<Column>, a: Column)
    requires cols != [] && AllShaped(cols)
    requires var init := cols[..|cols| - 1]; a.validity == JoinedValidity(init) && Len(a) == |AllMarks(init)|
    ensures var c := cols[|cols| - 1];
            && AppendValidity(a.validity, Len(a), c.validity, Len(c)) == JoinedValidity(cols)
            && |AllMarks(cols)| == Len(a) + Len(c)
  {
    var init, c := cols[..|cols| - 1], cols[|cols| - 1];
    if !AnyMarked(init) { UnmarkedRows(init); }
    assert Shaped(c);
  }

  ghost predicate StepOk(ty: DataType, cols: seq<Column>, a: Column)
    requires cols != []
  {
    var c := cols[|cols| - 1];
    && (Append(a, c).Some? <==> HasLayout(ty, c.data) && Assembled(ty, cols).Some?)
    && (Append(a, c).Some? ==> FormOf(ty, cols, Append(a, c).value))
  }

  lemma {:induction false} FixedStep(ty: DataType, cols: seq<Column>, a: Column)
    requires cols != [] && AllShaped(cols) && FormOf(ty, cols[..|cols| - 1], a) && (ty.BoolType? || FixedType(ty))
    ensures StepOk(ty, cols, a)
  {
    ValidityStep(cols, a);
  }

  /** A column of another layout is refused. */
  lemma OtherLayout(ty: DataType, a: Data, c: Column)
    requires HasLayout(ty, a) && !HasLayout(ty, c.data)
    ensures forall x: Column :: x.data == a ==> Append(x, c).None?
  {
  }

  lemma JoinStep(cols: seq<Column>)
    requires cols != [] && JoinOffsets(cols[..|cols| - 1]).Some?
    ensures var o, p := JoinOffsets(cols[..|cols| - 1]).value, OffsetsOf(cols[|cols| - 1].data);
            && |o| >= 1 && JoinOffsets(cols) == (if Last(o) + Last(p) <= U32Max then Some(AppendOffsets(o, p)) else None)
            && |AppendOffsets(o, p)| == |o| + |Tail(p)|
  {
    JoinedNonempty(cols[..|cols| - 1]);
  }

  lemma VaryingStep(ty: DataType, cols: seq<Column>, a: Column)
    requires cols != [] && AllShaped(cols) && FormOf(ty, cols[..|cols| - 1], a) && (ty.StringType? || ty.BytesType?)
    ensures StepOk(ty, cols, a)
  {
    if HasLayout(ty, cols[|cols| - 1].data) {
      VaryingMatch(ty, cols, a);
    } else {
      OtherLayout(ty, a.data, cols[|cols| - 1]);
    }
  }

  lemma {:induction false} VaryingMatch(ty: DataType, cols: seq<Column>, a: Column)
    requires cols != [] && AllShaped(cols) && FormOf(ty, cols[..|cols| - 1], a) && (ty.StringType? || ty.BytesType?)
    requires HasLayout(ty, cols[|cols| - 1].data)
    ensures StepOk(ty, cols, a)
  {
    assert Shaped(cols[|cols| - 1]);
    ValidityStep(cols, a);
    JoinStep(cols);
  }

  lemma {:induction false} JoinedNonempty(cols: seq<Column>)
    ensures JoinOffsets(cols).Some? ==> |JoinOffsets(cols).value| >= 1
  {
    if cols != [] { JoinedNonempty(cols[..|cols| - 1]); }
  }

  lemma ChildStep(e: DataType, cols: seq<Column>)
    requires cols != [] && cols[|cols| - 1].data.Nested?
    ensures var before := ConcatAll(e, Children(cols[..|cols| - 1]));
            ConcatAll(e, Children(cols)) == if before.None? then None else Append(before.value, cols[|cols| - 1].data.child)
  {
    var n := |cols| - 1;
    JoinSnoc(Append, Empty(e), Children(cols[..n]), cols[n].data.child);
  }

  lemma {:induction false} NestedStep(ty: DataType, cols: seq<Column>, a: Column)
    requires cols != [] && AllShaped(cols) && FormOf(ty, cols[..|cols| - 1], a) && ty.ListType?
    ensures StepOk(ty, cols, a)
  {
    if HasLayout(ty, cols[|cols| - 1].data) {
      NestedMatch(ty, cols, a);
    } else {
      OtherLayout(ty, a.data, cols[|cols| - 1]);
    }
  }

  lemma {:induction false} NestedParts(ty: DataType, cols: seq<Column>, a: Column)
    requires FormOf(ty, cols, a) && ty.ListType?
    ensures a.data.Nested? && JoinOffsets(cols) == Some(a.data.offsets) && ConcatAll(ty.elem, Children(cols)) == Some(a.data.child)
  {
  }

  /** The offsets and the child of one more append. */
  lemma {:induction false} NestedJoins(ty: DataType, cols: seq<Column>, o: seq<nat>, child: Column)
    requires cols != [] && ty.ListType? && cols[|cols| - 1].data.Nested?
    requires JoinOffsets(cols[..|cols| - 1]) == Some(o) && ConcatAll(ty.elem, Children(cols[..|cols| - 1])) == Some(child)
    ensures var c := cols[|cols| - 1].data;
            && ConcatAll(ty.elem, Children(cols)) == Append(child, c.child)
            && JoinOffsets(cols) == (if Last(o) + Last(c.offsets) <= U32Max then Some(AppendOffsets(o, c.offsets)) else None)
            && |AppendOffsets(o, c.offsets)| == |o| + |Tail(c.offsets)| && |o| >= 1
  {
    JoinStep(cols);
    ChildStep(ty.elem, cols);
  }

  lemma {:induction false} NestedAppend(a: Column, c: Column)
    requires a.data.Nested? && c.data.Nested? && a.data.offsets != []
    ensures var v := AppendValidity(a.validity, Len(a), c.validity, Len(c));
            var kid := Append(a.data.child, c.data.child);
            Append(a, c) == if kid.Some? && Last(a.data.offsets) + Last(c.data.offsets) <= U32Max
                            then Some(Column(a.ty, Nested(AppendOffsets(a.data.offsets, c.data.offsets), kid.value), v, Missing(v)))
                            else None
    ensures |AppendOffsets(a.data.offsets, c.data.offsets)| == |a.data.offsets| + |Tail(c.data.offsets)|
  {
  }

  ghost predicate Buffers(r: Option<Column>, d: Option<Data>)
  {
    (r.Some? <==> d.Some?) && (r.Some? ==> r.value.data == d.value)
  }

  lemma {:induction false} AppendBuffers(a: Column, c: Column, o: Option<seq<nat>>, kid: Option<Column>)
    requires a.data.Nested? && c.data.Nested? && a.data.offsets != [] && kid == Append(a.data.child, c.data.child)
    requires var x, y := a.data.offsets, c.data.offsets;
             o == if Last(x) + Last(y) <= U32Max then Some(AppendOffsets(x, y)) else None
    ensures Buffers(Append(a, c), ListBuffer(o, kid))
  {
    NestedAppend(a, c);
  }

  /** Appending a LIST column assembles its buffer. */
  lemma {:induction false} NestedData(ty: DataType, cols: seq<Column>, a: Column)
    requires cols != [] && ty.ListType? && cols[|cols| - 1].data.Nested? && a.data.Nested?
    requires JoinOffsets(cols[..|cols| - 1]) == Some(a.data.offsets)
    requires ConcatAll(ty.elem, Children(cols[..|cols| - 1])) == Some(a.data.child)
    ensures Buffers(Append(a, cols[|cols| - 1]), ListBuffer(JoinOffsets(cols), ConcatAll(ty.elem, Children(cols))))
  {
    NestedJoins(ty, cols, a.data.offsets, a.data.child);
    AppendBuffers(a, cols[|cols| - 1], JoinOffsets(cols), ConcatAll(ty.elem, Children(cols)));
  }

  /** What an append gives besides its buffer. */
  ghost predicate Framed(r: Option<Column>, a: Column, c: Column)
  {
    r.Some? ==>
      && Len(r.value) == Len(a) + Len(c) && r.value.ty == a.ty
      && r.value.validity == AppendValidity(a.validity, Len(a), c.validity, Len(c))
      && r.value.nullCount == Missing(r.value.validity)
  }

  lemma {:induction false} NestedFramed(a: Column, c: Column)
    requires a.data.Nested? && c.data.Nested? && a.data.offsets != [] && c.data.offsets != []
    ensures Framed(Append(a, c), a, c)
  {
    NestedAppend(a, c);
  }

  lemma {:induction false} StepFrom(ty: DataType, cols: seq<Column>, a: Column, r: Option<Column>)
    requires cols != [] && AllShaped(cols) && a.ty == ty && HasLayout(ty, cols[|cols| - 1].data)
    requires var init := cols[..|cols| - 1]; a.validity == JoinedValidity(init) && Len(a) == |AllMarks(init)|
    requires Framed(r, a, cols[|cols| - 1]) && Buffers(r, Assembled(ty, cols))
    ensures r.Some? <==> Assembled(ty, cols).Some?
    ensures r.Some? ==> FormOf(ty, cols, r.value)
  {
    ValidityStep(cols, a);
  }

  lemma {:induction false} ListOffsets(c: Column)
    requires Shaped(c) && c.data.Nested?
    ensures c.data.offsets != []
  {
  }

  lemma {:induction false} NestedRest(cols: seq<Column>, a: Column)
    requires cols != [] && AllShaped(cols) && cols[|cols| - 1].data.Nested? && a.data.Nested?
    requires JoinOffsets(cols[..|cols| - 1]) == Some(a.data.offsets)
    ensures Framed(Append(a, cols[|cols| - 1]), a, cols[|cols| - 1])
  {
    ListOffsets(cols[|cols| - 1]);
    JoinedNonempty(cols[..|cols| - 1]);
    NestedFramed(a, cols[|cols| - 1]);
  }

  lemma {:induction false} NestedMatch(ty: DataType, cols: seq<Column>, a: Column)
    requires cols != [] && AllShaped(cols) && FormOf(ty, cols[..|cols| - 1], a) && ty.ListType? && cols[|cols| - 1].data.Nested?
    ensures StepOk(ty, cols, a)
  {
    NestedParts(ty, cols[..|cols| - 1], a);
    NestedData(ty, cols, a);
    NestedRest(cols, a);
    StepFrom(ty, cols, a, Append(a, cols[|cols| - 1]));
  }

  /** What could not be assembled from fewer columns cannot be from more. */
  lemma RefusalStays(ty: DataType, cols: seq<Column>)
    requires cols != [] && Assembled(ty, cols[..|cols| - 1]).None? && HasLayout(ty, cols[|cols| - 1].data)
    ensures Assembled(ty, cols).None?
  {
    if ty.ListType? { ChildStep(ty.elem, cols); }
  }

  lemma LayoutStep(ty: DataType, cols: seq<Column>)
    requires cols != []
    ensures AllLayout(ty, cols) <==> AllLayout(ty, cols[..|cols| - 1]) && HasLayout(ty, cols[|cols| - 1].data)
  {
    var n := |cols| - 1;
    forall i | 0 <= i < n ensures cols[..n][i] == cols[i] {}
    if AllLayout(ty, cols[..n]) && HasLayout(ty, cols[n].data) {
      forall i | 0 <= i < |cols| ensures HasLayout(ty, cols[i].data) { if i < n { assert HasLayout(ty, cols[..n][i].data); } }
    }
  }

  /** Assembling part by part gives exactly what appending column by column gives, and refuses
      exactly when that does. */
  lemma {:induction false} AssembledIsConcat(ty: DataType, cols: seq<Column>)
    requires AllShaped(cols)
    ensures ConcatAll(ty, cols).Some? <==> AllLayout(ty, cols) && Assembled(ty, cols).Some?
    ensures ConcatAll(ty, cols).Some? ==> FormOf(ty, cols, ConcatAll(ty, cols).value)
  {
    if cols != [] {
      var init := cols[..|cols| - 1];
      AssembledIsConcat(ty, init);
      LayoutStep(ty, cols);
      if ConcatAll(ty, init).Some? {
        OneStep(ty, cols, ConcatAll(ty, init).value);
      } else if AllLayout(ty, cols) {
        RefusalStays(ty, cols);
      }
    }
  }

  lemma OneStep(ty: DataType, cols: seq<Column>, a: Column)
    requires cols != [] && AllShaped(cols) && FormOf(ty, cols[..|cols| - 1], a)
    ensures StepOk(ty, cols, a)
  {
    if ty.ListType? { NestedStep(ty, cols, a); }
    else if ty.StringType? || ty.BytesType? { VaryingStep(ty, cols, a); }
    else { FixedStep(ty, cols, a); }
  }

  // ── What is too large ──────────────────────────────────────────────────────

  /** The bytes behind a STRING or BYTES column, the elements behind a LIST column. */
  function Payload(c: Column): nat
  {
    match c.data
    case Varying(_, _, bytes) => |bytes|
    case Nested(_, child) => Len(child)
    case _ => 0
  }

  function TotalPayload(cols: seq<Column>): nat
  {
    if cols == [] then 0 else TotalPayload(cols[..|cols| - 1]) + Payload(cols[|cols| - 1])
  }

  ghost predicate EndsAtPayload(c: Column)
  {
    OffsetsOk(OffsetsOf(c.data)) && Last(OffsetsOf(c.data)) == Payload(c)
  }

  lemma TypedEnds(ty: DataType, cols: seq<Column>)
    requires ColumnsOf(ty, cols) && (ty.StringType? || ty.BytesType? || ty.ListType?)
    ensures forall i :: 0 <= i < |cols| ==> EndsAtPayload(cols[i])
  {
    forall i | 0 <= i < |cols| ensures EndsAtPayload(cols[i]) { assert Valid(cols[i]); }
  }

  lemma {:induction false} JoinedPayload(cols: seq<Column>)
    requires forall i :: 0 <= i < |cols| ==> EndsAtPayload(cols[i])
    ensures JoinOffsets(cols).Some? <==> TotalPayload(cols) <= U32Max
    ensures JoinOffsets(cols).Some? ==> JoinOffsets(cols).value != [] && Last(JoinOffsets(cols).value) == TotalPayload(cols)
  {
    if cols != [] {
      var n := |cols| - 1;
      JoinedPayload(cols[..n]);
      assert EndsAtPayload(cols[n]);
      if JoinOffsets(cols[..n]).Some? { LastJoined(JoinOffsets(cols[..n]).value, OffsetsOf(cols[n].data)); }
    }
  }

  lemma LastJoined(a: seq<nat>, b: seq<nat>)
    requires a != [] && OffsetsOk(b)
    ensures AppendOffsets(a, b) != [] && Last(AppendOffsets(a, b)) == Last(a) + Last(b)
  {
    AppendOffsetsAt(a, b, |a| + |b| - 2);
  }

  lemma {:induction false} TypedChildren(ty: DataType, cols: seq<Column>)
    requires ColumnsOf(ty, cols) && ty.ListType?
    ensures ColumnsOf(ty.elem, Children(cols))
  {
    if cols != [] {
      TypedChildren(ty, cols[..|cols| - 1]);
      assert Valid(cols[|cols| - 1]);
    }
  }

  lemma ColumnsAreShaped(ty: DataType, cols: seq<Column>)
    requires ColumnsOf(ty, cols)
    ensures AllShaped(cols)
  {
    forall i | 0 <= i < |cols| ensures Shaped(cols[i]) { assert Valid(cols[i]); }
  }

  /** Columns of one type are refused exactly when their joint payload, or that of their children,
      does not fit 32-bit offsets. */
  lemma {:induction false} RefusedIffTooLarge(ty: DataType, cols: seq<Column>)
    requires ValidType(ty) && ColumnsOf(ty, cols)
    ensures ConcatAll(ty, cols).None? <==>
              TotalPayload(cols) > U32Max || (ty.ListType? && TotalPayload(Children(cols)) > U32Max)
    decreases ty
  {
    ColumnsAreShaped(ty, cols);
    AssembledIsConcat(ty, cols);
    TypedLayout(ty, cols);
    if ty.ListType? {
      TypedEnds(ty, cols);
      JoinedPayload(cols);
      TypedChildren(ty, cols);
      RefusedIffTooLarge(ty.elem, Children(cols));
    } else if ty.StringType? || ty.BytesType? {
      TypedEnds(ty, cols);
      JoinedPayload(cols);
    } else {
      NoPayload(ty, cols);
    }
  }

  lemma {:induction false} NoPayload(ty: DataType, cols: seq<Column>)
    requires ColumnsOf(ty, cols) && (ty.BoolType? || FixedType(ty))
    ensures TotalPayload(cols) == 0
  {
    if cols != [] {
      NoPayload(ty, cols[..|cols| - 1]);
      assert Valid(cols[|cols| - 1]);
    }
  }

  // ── The loops ──────────────────────────────────────────────────────────────

  lemma SnocPrefix<T>(s: seq<T>, k: nat)
    requires k < |s|
    ensures s[..k + 1][..k] == s[..k] && s[..k + 1][k] == s[k] && s[..|s|] == s
  {
  }

  /** Bitmap pushes for one column: its own bits, or all valid. */
  method PushMarks(bm: seq<bool>, c: Column) returns (r: seq<bool>)
    requires Shaped(c)
    ensures r == bm + Marks(c.validity, Len(c))
  {
    r := bm;
    var i := 0;
    while i < Len(c)
      invariant 0 <= i <= Len(c) && r == bm + Marks(c.validity, Len(c))[..i]
    {
      r := r + [if c.validity.Some? then c.validity.value[i] else true];
      i := i + 1;
    }
  }

  method ConcatValidity(cols: seq<Column>) returns (validity: Option<seq<bool>>)
    requires AllShaped(cols)
    ensures validity == JoinedValidity(cols)
  {
    var any, k := false, 0;
    while k < |cols|
      invariant 0 <= k <= |cols| && any == AnyMarked(cols[..k])
    {
      SnocPrefix(cols, k);
      any := any || cols[k].validity.Some?;
      k := k + 1;
    }
    assert cols[..k] == cols;
    if !any { return None; }
    var bm := [];
    k := 0;
    while k < |cols|
      invariant 0 <= k <= |cols| && bm == AllMarks(cols[..k])
    {
      SnocPrefix(cols, k);
      bm := PushMarks(bm, cols[k]);
      k := k + 1;
    }
    assert cols[..k] == cols;
    validity := Some(bm);
  }

  /** The offsets of one more column, each checked against `u32::MAX`. */
  method PushOffsets(offsets: seq<nat>, o: seq<nat>) returns (r: Option<seq<nat>>)
    requires offsets != [] && Last(offsets) <= U32Max && OffsetsOk(o)
    ensures r == if Last(offsets) + Last(o) <= U32Max then Some(AppendOffsets(offsets, o)) else None
  {
    var base, out, j := offsets[|offsets| - 1], offsets, 1;
    while j < |o|
      invariant 1 <= j <= |o| && out == offsets + Shift(o[1..j], base) && base + o[j - 1] <= U32Max
    {
      if base + o[j] > U32Max {
        AscendingAt(o, j, |o| - 1);
        return None;
      }
      assert Shift(o[1..j + 1], base) == Shift(o[1..j], base) + [base + o[j]];
      out := out + [base + o[j]];
      j := j + 1;
    }
    assert o[1..j] == o[1..];
    r := Some(out);
  }

  lemma {:induction false} JoinedWithinU32(cols: seq<Column>)
    requires JoinOffsets(cols).Some? && forall i :: 0 <= i < |cols| ==> OffsetsOk(OffsetsOf(cols[i].data))
    ensures JoinOffsets(cols).value != [] && Last(JoinOffsets(cols).value) <= U32Max
  {
    if cols != [] {
      var n := |cols| - 1;
      JoinedWithinU32(cols[..n]);
      LastJoined(JoinOffsets(cols[..n]).value, OffsetsOf(cols[n].data));
    }
  }

  /** Once an offset is too large for some of the columns, it is for all of them. */
  lemma {:induction false} TooLargeStays(cols: seq<Column>, k: nat)
    requires k <= |cols| && JoinOffsets(cols[..k]).None?
    ensures JoinOffsets(cols).None?
    decreases |cols|
  {
    if k == |cols| {
      assert cols[..k] == cols;
    } else {
      assert cols[..|cols| - 1][..k] == cols[..k];
      TooLargeStays(cols[..|cols| - 1], k);
    }
  }

  /** The offset loop of `concat_varwidth` and `concat_list`. */
  method ConcatOffsets(ty: DataType, cols: seq<Column>) returns (r: Result<seq<nat>>)
    requires AllShaped(cols) && (ty.StringType? || ty.BytesType? || ty.ListType?)
    ensures r.Ok? ==> AllLayout(ty, cols) && JoinOffsets(cols) == Some(r.value)
    ensures r.Err? ==> (r.error == Malformed && !AllLayout(ty, cols)) || (r.error == TooLarge && JoinOffsets(cols).None?)
  {
    var offsets, k := [0], 0;
    while k < |cols|
      invariant 0 <= k <= |cols| && AllLayout(ty, cols[..k]) && JoinOffsets(cols[..k]) == Some(offsets)
    {
      SnocPrefix(cols, k);
      LayoutStep(ty, cols[..k + 1]);
      if !HasLayout(ty, cols[k].data) { return Err(Malformed); }
      assert Shaped(cols[k]);
      ShapedOffsets(ty, cols[..k]);
      JoinedWithinU32(cols[..k]);
      var next := PushOffsets(offsets, OffsetsOf(cols[k].data));
      if next.None? {
        TooLargeStays(cols, k + 1);
        return Err(TooLarge);
      }
      offsets := next.value;
      k := k + 1;
    }
    assert cols[..k] == cols;
    r := Ok(offsets);
  }

  lemma ShapedOffsets(ty: DataType, cols: seq<Column>)
    requires AllShaped(cols) && AllLayout(ty, cols) && (ty.StringType? || ty.BytesType? || ty.ListType?)
    ensures forall i :: 0 <= i < |cols| ==> OffsetsOk(OffsetsOf(cols[i].data))
  {
    forall i | 0 <= i < |cols| ensures OffsetsOk(OffsetsOf(cols[i].data)) {
      assert Shaped(cols[i]) && HasLayout(ty, cols[i].data);
    }
  }

  /** `concat_scalar`, and the same loop over bit buffers. */
  method ConcatFixed(ty: DataType, cols: seq<Column>) returns (r: Result<Data>)
    requires ty.BoolType? || FixedType(ty)
    ensures r.Ok? ==> AllLayout(ty, cols) && Assembled(ty, cols) == Some(r.value)
    ensures r.Err? ==> r.error == Malformed && !AllLayout(ty, cols)
  {
    var bits, cells, k := [], [], 0;
    while k < |cols|
      invariant 0 <= k <= |cols| && AllLayout(ty, cols[..k])
      invariant ty.BoolType? ==> bits == AllBits(cols[..k])
      invariant !ty.BoolType? ==> cells == AllCells(cols[..k])
    {
      SnocPrefix(cols, k);
      LayoutStep(ty, cols[..k + 1]);
      match cols[k].data {
        case Bits(b) => if !ty.BoolType? { return Err(Malformed); } bits := bits + b;
        case Fixed(kind, v) => if kind != Kind(ty) || ty.BoolType? { return Err(Malformed); } cells := cells + v;
        case _ => return Err(Malformed);
      }
      k := k + 1;
    }
    assert cols[..k] == cols;
    r := Ok(if ty.BoolType? then Bits(bits) else Fixed(Kind(ty), cells));
  }

  method ConcatBytes(cols: seq<Column>) returns (bytes: seq<nat>)
    ensures bytes == AllBytes(cols)
  {
    bytes := [];
    var k := 0;
    while k < |cols|
      invariant 0 <= k <= |cols| && bytes == AllBytes(cols[..k])
    {
      SnocPrefix(cols, k);
      if cols[k].data.Varying? { bytes := bytes + cols[k].data.bytes; }
      k := k + 1;
    }
    assert cols[..k] == cols;
  }

  method CollectChildren(cols: seq<Column>) returns (kids: seq<Column>)
    requires AllShaped(cols) && forall i :: 0 <= i < |cols| ==> cols[i].data.Nested?
    ensures kids == Children(cols) && AllShaped(kids) && |kids| == |cols|
    ensures forall i :: 0 <= i < |cols| ==> kids[i] == cols[i].data.child
  {
    kids := [];
    var k := 0;
    while k < |cols|
      invariant 0 <= k <= |cols| && kids == Children(cols[..k]) && |kids| == k && AllShaped(kids)
      invariant forall i :: 0 <= i < k ==> kids[i] == cols[i].data.child
    {
      SnocPrefix(cols, k);
      assert Shaped(cols[k]);
      kids := kids + [cols[k].data.child];
      k := k + 1;
    }
    assert cols[..k] == cols;
  }

  /** `concat_varwidth`. */
  method ConcatVarying(ty: DataType, cols: seq<Column>) returns (r: Result<Data>)
    requires AllShaped(cols) && (ty.StringType? || ty.BytesType?)
    ensures DataResult(ty, cols, r)
  {
    var offsets := ConcatOffsets(ty, cols);
    TypedLayout(ty, cols);
    if offsets.Err? { return Err(offsets.error); }
    var bytes := ConcatBytes(cols);
    r := Ok(Varying(Kind(ty), offsets.value, bytes));
  }

  /** `concat_list`: the offsets, then one concatenation of all the children. */
  method ConcatList(ty: DataType, cols: seq<Column>) returns (r: Result<Data>)
    requires AllShaped(cols) && ty.ListType?
    ensures DataResult(ty, cols, r)
    decreases ty, 1
  {
    var offsets := ConcatOffsets(ty, cols);
    if offsets.Err? {
      TypedLayout(ty, cols);
      return Err(offsets.error);
    }
    var child := ConcatChildren(ty, cols);
    r := if child.Err? then Err(child.error) else Ok(Nested(offsets.value, child.value));
    ListResult(ty, cols, offsets.value, child);
  }

  lemma ListResult(ty: DataType, cols: seq<Column>, offsets: seq<nat>, child: Result<Column>)
    requires ty.ListType? && AllLayout(ty, cols) && JoinOffsets(cols) == Some(offsets)
    requires ConcatAll(ty.elem, Children(cols)) == if child.Ok? then Some(child.value) else None
    requires child.Err? && ColumnsOf(ty, cols) ==> child.error == TooLarge
    ensures DataResult(ty, cols, if child.Err? then Err(child.error) else Ok(Nested(offsets, child.value)))
  {
  }

  method ConcatChildren(ty: DataType, cols: seq<Column>) returns (r: Result<Column>)
    requires AllShaped(cols) && ty.ListType? && AllLayout(ty, cols)
    ensures ConcatAll(ty.elem, Children(cols)) == if r.Ok? then Some(r.value) else None
    ensures r.Err? && ColumnsOf(ty, cols) ==> r.error == TooLarge
    decreases ty, 0
  {
    ShapedNested(ty, cols);
    var kids := CollectChildren(cols);
    TypedKids(ty, cols, kids);
    r := ConcatColumns(ty.elem, kids);
  }

  ghost predicate DataResult(ty: DataType, cols: seq<Column>, r: Result<Data>)
  {
    && (r.Ok? ==> AllLayout(ty, cols) && Assembled(ty, cols) == Some(r.value))
    && (r.Err? ==> !AllLayout(ty, cols) || Assembled(ty, cols).None?)
    && (r.Err? && ColumnsOf(ty, cols) ==> r.error == TooLarge)
  }

  /** `concat_data`. */
  method ConcatData(ty: DataType, cols: seq<Column>) returns (r: Result<Data>)
    requires AllShaped(cols)
    ensures DataResult(ty, cols, r)
    decreases ty, 2
  {
    if ty.StringType? || ty.BytesType? {
      r := ConcatVarying(ty, cols);
    } else if ty.ListType? {
      r := ConcatList(ty, cols);
    } else {
      r := ConcatFixed(ty, cols);
      TypedLayout(ty, cols);
    }
  }

  lemma TypedLayout(ty: DataType, cols: seq<Column>)
    ensures ColumnsOf(ty, cols) ==> AllLayout(ty, cols)
  {
    if ColumnsOf(ty, cols) {
      forall i | 0 <= i < |cols| ensures HasLayout(ty, cols[i].data) { assert Valid(cols[i]); }
    }
  }

  lemma ShapedNested(ty: DataType, cols: seq<Column>)
    requires ty.ListType? && AllLayout(ty, cols)
    ensures forall i :: 0 <= i < |cols| ==> cols[i].data.Nested?
  {
    forall i | 0 <= i < |cols| ensures cols[i].data.Nested? { assert HasLayout(ty, cols[i].data); }
  }

  lemma TypedKids(ty: DataType, cols: seq<Column>, kids: seq<Column>)
    requires ty.ListType? && |kids| == |cols| && forall i :: 0 <= i < |cols| ==> cols[i].data.Nested? && kids[i] == cols[i].data.child
    ensures ColumnsOf(ty, cols) ==> ColumnsOf(ty.elem, kids)
  {
    if ColumnsOf(ty, cols) {
      forall i | 0 <= i < |kids| ensures Valid(kids[i]) && kids[i].ty == ty.elem { assert Valid(cols[i]); }
    }
  }

  /** `Column::concat`: the columns appended one after another, refused exactly when that is. */
  method ConcatColumns(ty: DataType, cols: seq<Column>) returns (r: Result<Column>)
    requires AllShaped(cols)
    ensures r.Ok? ==> ConcatAll(ty, cols) == Some(r.value)
    ensures r.Err? ==> ConcatAll(ty, cols).None?
    ensures r.Err? && ColumnsOf(ty, cols) ==> r.error == TooLarge
    decreases ty, 3
  {
    if cols == [] { return Ok(Empty(ty)); }
    AssembledIsConcat(ty, cols);
    var validity := ConcatValidity(cols);
    var data := ConcatData(ty, cols);
    if data.Err? { return Err(data.error); }
    r := Ok(Column(ty, data.value, validity, Missing(validity)));
  }
}
