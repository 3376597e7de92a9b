/** Columns from decoded buffers (`Column::from_parts`, src/exec/column.rs): accepted exactly when
    everything reading relies on holds. */
module FromParts {
  import opened Options
  import opened Order
  import opened Fit
  import opened Columns
  import opened ConcatLoops

  /** What a decoded fixed-width buffer can hold, before its column's type is looked at. */
  predicate MachineCell(c: Cell, k: Type)
  {
    match k
    case TInt64 => c.Word? && I64Min <= c.n <= I64Max
    case TUInt64 => c.Word? && 0 <= c.n <= U64Max
    case TFloat64 => c.Double?
    case TDecimal => c.Word? && I128Min <= c.n <= I128Max
    case TTimestamp => c.Word? && I64Min <= c.n <= I64Max
    case TDate => c.Word? && I32Min <= c.n <= I32Max
    case TUuid => c.Block? && Octets(c.octets) && |c.octets| == 16
    case TIp => c.Block? && Octets(c.octets) && |c.octets| == 16
    case _ => false
  }

  predicate MachineOffsets(o: seq<nat>)
  {
    forall i :: 0 <= i < |o| ==> o[i] <= U32Max
  }

  /** Buffers as the decoder hands them over: machine-sized, the child already a column. */
  ghost predicate MachineData(d: Data)
  {
    match d
    case Bits(_) => true
    case Fixed(k, cells) =>
      && k != TBool && k != TString && k != TBytes && !k.TList?
      && forall i :: 0 <= i < |cells| ==> MachineCell(cells[i], k)
    case Varying(k, o, bytes) => (k == TString || k == TBytes) && MachineOffsets(o) && Octets(bytes)
    case Nested(o, child) => MachineOffsets(o) && Valid(child)
  }

  /** `validate_offsets`: from zero, never falling, ending at the payload's end. */
  method ValidateOffsets(o: seq<nat>, end: nat) returns (ok: bool)
    requires MachineOffsets(o)
    ensures ok <==> OffsetsOk(o) && Last(o) == end
  {
    if |o| == 0 || o[0] != 0 { return false; }
    var i := 0;
    while i < |o| - 1
      invariant 0 <= i <= |o| - 1 && forall j :: 0 <= j < i ==> RisesAt(o, j)
    {
      if o[i] > o[i + 1] {
        assert !RisesAt(o, i);
        return false;
      }
      assert RisesAt(o, i);
      i := i + 1;
    }
    ok := Last(o) == end;
  }

  method ValidateText(o: seq<nat>, bytes: seq<nat>) returns (ok: bool)
    requires OffsetsOk(o) && Last(o) == |bytes|
    ensures ok <==> TextRows(o, bytes)
  {
    var i := 0;
    while i < |o| - 1
      invariant 0 <= i <= |o| - 1 && forall j :: 0 <= j < i ==> Utf8(Span(o, bytes, j, 1))
    {
      if !Utf8(Span(o, bytes, i, 1)) { return false; }
      i := i + 1;
    }
    ok := true;
  }

  method ValidateDecimals(cells: seq<Cell>, precision: nat, scale: nat) returns (ok: bool)
    requires forall i :: 0 <= i < |cells| ==> MachineCell(cells[i], TDecimal)
    ensures ok <==> forall i :: 0 <= i < |cells| ==> CellOk(cells[i], DecimalType(precision, scale))
  {
    var limit, i := Pow10(precision), 0;
    while i < |cells|
      invariant 0 <= i <= |cells| && forall j :: 0 <= j < i ==> CellOk(cells[j], DecimalType(precision, scale))
    {
      if !(-limit < cells[i].n < limit) {
        assert !CellOk(cells[i], DecimalType(precision, scale));
        return false;
      }
      i := i + 1;
    }
    ok := true;
  }

  lemma CellsOfKind(cells: seq<Cell>, ty: DataType)
    requires FixedType(ty) && !ty.DecimalType? && forall i :: 0 <= i < |cells| ==> MachineCell(cells[i], Kind(ty))
    ensures forall i :: 0 <= i < |cells| ==> CellOk(cells[i], ty)
  {
  }

  lemma DecimalKind(ty: DataType)
    ensures Kind(ty) == TDecimal <==> ty.DecimalType?
  {
  }

  /** The offsets of variable-width buffers are in order. */
  predicate OffsetsFit(d: Data)
  {
    match d
    case Varying(_, o, bytes) => OffsetsOk(o) && Last(o) == |bytes|
    case Nested(o, child) => OffsetsOk(o) && Last(o) == Len(child)
    case _ => true
  }

  /** `build_data`: the row count, or a refusal. */
  method BuildData(ty: DataType, d: Data) returns (rows: Option<nat>)
    requires ValidType(ty) && MachineData(d)
    ensures rows.Some? <==> DataOk(d, ty) && OffsetsFit(d)
    ensures rows.Some? ==> rows.value == Size(d)
  {
    match d {
      case Bits(b) => if !ty.BoolType? { return None; } rows := Some(|b|);
      case Fixed(k, cells) =>
        if k != Kind(ty) { return None; }
        DecimalKind(ty);
        if ty.DecimalType? {
          var ok := ValidateDecimals(cells, ty.precision, ty.scale);
          if !ok { return None; }
        } else {
          CellsOfKind(cells, ty);
        }
        rows := Some(|cells|);
      case Varying(k, o, bytes) =>
        if k != Kind(ty) { return None; }
        var ok := ValidateOffsets(o, |bytes|);
        if !ok { return None; }
        if ty.StringType? {
          var text := ValidateText(o, bytes);
          if !text { return None; }
        }
        rows := Some(|o| - 1);
      case Nested(o, child) =>
        if !ty.ListType? || child.ty != ty.elem { return None; }
        var ok := ValidateOffsets(o, Len(child));
        if !ok { return None; }
        rows := Some(|o| - 1);
    }
  }

  /** `from_parts`: any buffers at all; the result is a valid column, and every valid column's
      parts are accepted. */
  method ColumnFromParts(ty: DataType, d: Data, validity: Option<seq<bool>>) returns (r: Result<Column>)
    requires ValidType(ty) && MachineData(d)
    ensures r.Ok? <==> Valid(Column(ty, d, validity, Missing(validity)))
    ensures r == (if r.Ok? then Ok(Column(ty, d, validity, Missing(validity))) else Err(Malformed))
  {
    var rows := BuildData(ty, d);
    if rows.None? { return Err(Malformed); }
    if validity.Some? && |validity.value| != rows.value { return Err(Malformed); }
    r := Ok(Column(ty, d, validity, Missing(validity)));
  }
}
