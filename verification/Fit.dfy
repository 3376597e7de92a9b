/** Lossless conversion on write (src/types/fit.rs): a value enters a column only as a value of
    the column's type that means exactly the same. */
module Fit {
  import opened Options
  import opened Order
  import Arith

  /** A column's type (src/types/datatype.rs). */
  datatype DataType =
    | BoolType | Int64Type | UInt64Type | Float64Type
    | DecimalType(precision: nat, scale: nat)
    | StringType | BytesType | TimestampType | DateType | UuidType | IpType
    | ListType(elem: DataType)

  /** The constructors refuse every other type: no list of lists, DECIMAL(1..38, 0..precision). */
  predicate ValidType(ty: DataType)
  {
    match ty
    case DecimalType(p, s) => 1 <= p <= MaxScale && s <= p
    case ListType(e) => !e.ListType? && ValidType(e)
    case _ => true
  }

  const I32Min := -0x8000_0000
  const I32Max := 0x7FFF_FFFF
  const I64Min := -0x8000_0000_0000_0000
  const I64Max := 0x7FFF_FFFF_FFFF_FFFF
  const U64Max := 0xFFFF_FFFF_FFFF_FFFF
  const I128Min := -0x8000_0000_0000_0000_0000_0000_0000_0000
  const TwoPow53 := 0x20_0000_0000_0000
  const NsPerDay := 86_400_000_000_000

  predicate Octets(s: seq<nat>)
  {
    forall i :: 0 <= i < |s| ==> s[i] < 256
  }

  /** What a `Value` can hold: each payload within its machine type. */
  predicate Representable(v: Value)
  {
    match v
    case Int64(i) => I64Min <= i <= I64Max
    case UInt64(u) => u <= U64Max
    case Decimal(d) => ValidDecimal(d)
    case Str(s) => Octets(s) && Utf8(s)
    case Bytes(s) => Octets(s)
    case Timestamp(ns) => I64Min <= ns <= I64Max
    case Date(days) => I32Min <= days <= I32Max
    case Uuid(o) => Octets(o) && |o| == 16
    case Ip(o) => Octets(o) && |o| == 16
    case List(items) => forall i :: 0 <= i < |items| ==> Representable(items[i])
    case _ => true
  }

  // ── UTF-8 (section 4 of RFC 3629) ──────────────────────────────────────────

  predicate Continues(s: seq<nat>, i: nat)
  {
    i < |s| && 0x80 <= s[i] <= 0xBF
  }

  /** The length of the character at the front, or 0 when there is none. */
  function FrontChar(s: seq<nat>): (n: nat)
    ensures n <= |s|
  {
    if s == [] then 0
    else if s[0] <= 0x7F then 1
    else if 0xC2 <= s[0] <= 0xDF && Continues(s, 1) then 2
    else if 0xE0 <= s[0] <= 0xEF && Continues(s, 1) && Continues(s, 2)
            && (s[0] == 0xE0 ==> s[1] >= 0xA0) && (s[0] == 0xED ==> s[1] <= 0x9F) then 3
    else if 0xF0 <= s[0] <= 0xF4 && Continues(s, 1) && Continues(s, 2) && Continues(s, 3)
            && (s[0] == 0xF0 ==> s[1] >= 0x90) && (s[0] == 0xF4 ==> s[1] <= 0x8F) then 4
    else 0
  }

  predicate Utf8(s: seq<nat>)
  {
    s == [] || (FrontChar(s) > 0 && Utf8(s[FrontChar(s)..]))
  }

  /** A Unicode scalar value. */
  predicate Scalar(c: nat)
  {
    c < 0xD800 || 0xE000 <= c < 0x11_0000
  }

  function Encode(c: nat): seq<nat>
    requires Scalar(c)
  {
    if c < 0x80 then [c]
    else if c < 0x800 then [0xC0 + c / 64, 0x80 + c % 64]
    else if c < 0x1_0000 then [0xE0 + c / 4096, 0x80 + c / 64 % 64, 0x80 + c % 64]
    else [0xF0 + c / 262_144, 0x80 + c / 4096 % 64, 0x80 + c / 64 % 64, 0x80 + c % 64]
  }

  predicate Scalars(cs: seq<nat>)
  {
    forall i :: 0 <= i < |cs| ==> Scalar(cs[i])
  }

  function EncodeAll(cs: seq<nat>): seq<nat>
    requires Scalars(cs)
  {
    if cs == [] then [] else Encode(cs[0]) + EncodeAll(cs[1..])
  }

  lemma {:induction false} EncodedFront(c: nat, rest: seq<nat>)
    requires Scalar(c)
    ensures FrontChar(Encode(c) + rest) == |Encode(c)| > 0
  {
    var s := Encode(c) + rest;
    assert forall i :: 0 <= i < |Encode(c)| ==> s[i] == Encode(c)[i];
  }

  /** A number split off its last six bits. */
  lemma {:induction false} SixBits(h: nat, l: nat, c: nat)
    requires l < 64 && c == h * 64 + l
    ensures c / 64 == h && c % 64 == l
  {
    Arith.UniqueQuotient(c, 64, h, l);
  }

  lemma {:induction false} TwoBytes(s: seq<nat>)
    requires FrontChar(s) == 2
    ensures var c := (s[0] - 0xC0) * 64 + (s[1] - 0x80);
            c >= 0x80 && Scalar(c) && Encode(c) == s[..2]
  {
    var h, l := s[0] - 0xC0, s[1] - 0x80;
    SixBits(h, l, h * 64 + l);
    assert s[..2] == [s[0], s[1]];
  }

  lemma {:induction false} ThreeBytes(s: seq<nat>)
    requires FrontChar(s) == 3
    ensures var c := ((s[0] - 0xE0) * 64 + (s[1] - 0x80)) * 64 + (s[2] - 0x80);
            Scalar(c) && Encode(c) == s[..3]
  {
    var h, m, l := s[0] - 0xE0, s[1] - 0x80, s[2] - 0x80;
    var c := (h * 64 + m) * 64 + l;
    SixBits(h * 64 + m, l, c);
    SixBits(h, m, h * 64 + m);
    Arith.UniqueQuotient(c, 4096, h, m * 64 + l);
    assert 0x800 <= c < 0x1_0000 && Scalar(c);
    assert s[..3] == [s[0], s[1], s[2]];
  }

  lemma {:induction false} FourDigits(h: nat, m: nat, k: nat, l: nat, c: nat)
    requires m < 64 && k < 64 && l < 64 && c == ((h * 64 + m) * 64 + k) * 64 + l
    ensures c / 262_144 == h && c / 4096 % 64 == m && c / 64 % 64 == k && c % 64 == l
  {
    SixBits((h * 64 + m) * 64 + k, l, c);
    SixBits(h * 64 + m, k, (h * 64 + m) * 64 + k);
    Arith.UniqueQuotient(c, 4096, h * 64 + m, k * 64 + l);
    SixBits(h, m, h * 64 + m);
    Arith.UniqueQuotient(c, 262_144, h, m * 4096 + k * 64 + l);
  }

  lemma {:induction false} FourBytes(s: seq<nat>)
    requires FrontChar(s) == 4
    ensures var c := (((s[0] - 0xF0) * 64 + (s[1] - 0x80)) * 64 + (s[2] - 0x80)) * 64 + (s[3] - 0x80);
            Scalar(c) && Encode(c) == s[..4]
  {
    var h, m, k, l := s[0] - 0xF0, s[1] - 0x80, s[2] - 0x80, s[3] - 0x80;
    var c := ((h * 64 + m) * 64 + k) * 64 + l;
    FourDigits(h, m, k, l, c);
    assert 0x1_0000 <= c < 0x11_0000;
    assert s[..4] == [s[0], s[1], s[2], s[3]];
  }

  /** What the front character decodes to. */
  lemma {:induction false} FrontDecodes(s: seq<nat>) returns (c: nat)
    requires FrontChar(s) > 0
    ensures Scalar(c) && Encode(c) == s[..FrontChar(s)]
  {
    var n := FrontChar(s);
    if n == 1 {
      c := s[0];
    } else if n == 2 {
      TwoBytes(s);
      c := (s[0] - 0xC0) * 64 + (s[1] - 0x80);
    } else if n == 3 {
      ThreeBytes(s);
      c := ((s[0] - 0xE0) * 64 + (s[1] - 0x80)) * 64 + (s[2] - 0x80);
    } else {
      FourBytes(s);
      c := (((s[0] - 0xF0) * 64 + (s[1] - 0x80)) * 64 + (s[2] - 0x80)) * 64 + (s[3] - 0x80);
    }
  }

  /** Valid text is exactly the encodings of sequences of scalar values. */
  lemma {:induction false} Utf8Iff(s: seq<nat>)
    ensures Utf8(s) <==> exists cs: seq<nat> :: Scalars(cs) && EncodeAll(cs) == s
  {
    if Utf8(s) { var cs := Decode(s); }
    forall cs: seq<nat> | Scalars(cs) && EncodeAll(cs) == s ensures Utf8(s) { EncodedIsUtf8(cs); }
  }

  lemma {:induction false} EncodedPush(c: nat, rest: seq<nat>)
    requires Scalar(c) && Scalars(rest)
    ensures Scalars([c] + rest) && EncodeAll([c] + rest) == Encode(c) + EncodeAll(rest)
  {
    var cs := [c] + rest;
    assert cs[0] == c && cs[1..] == rest;
  }

  lemma {:induction false} Decode(s: seq<nat>) returns (cs: seq<nat>)
    requires Utf8(s)
    ensures Scalars(cs) && EncodeAll(cs) == s
    decreases |s|
  {
    if s == [] {
      cs := [];
    } else {
      var n := FrontChar(s);
      var c := FrontDecodes(s);
      var rest := Decode(s[n..]);
      cs := [c] + rest;
      EncodedPush(c, rest);
      assert s == s[..n] + s[n..];
    }
  }

  lemma {:induction false} EncodedIsUtf8(cs: seq<nat>)
    requires Scalars(cs)
    ensures Utf8(EncodeAll(cs))
  {
    if cs != [] {
      var first, rest := Encode(cs[0]), EncodeAll(cs[1..]);
      EncodedIsUtf8(cs[1..]);
      EncodedFront(cs[0], rest);
      assert (first + rest)[|first|..] == rest;
    }
  }

  /** A value of the column's type, or NULL. */
  predicate OfType(v: Value, ty: DataType)
    decreases v
  {
    match v
    case Null => true
    case Bool(_) => ty.BoolType?
    case Int64(_) => ty.Int64Type?
    case UInt64(_) => ty.UInt64Type?
    case Float64(_) => ty.Float64Type?
    case Decimal(d) => ty.DecimalType? && d.scale == ty.scale && -Pow10(ty.precision) < d.unscaled < Pow10(ty.precision)
    case Str(_) => ty.StringType?
    case Bytes(_) => ty.BytesType?
    case Timestamp(_) => ty.TimestampType?
    case Date(_) => ty.DateType?
    case Uuid(_) => ty.UuidType?
    case Ip(_) => ty.IpType?
    case List(items) => ty.ListType? && forall i :: 0 <= i < |items| ==> OfType(items[i], ty.elem)
  }

  predicate Holds(v: Value, ty: DataType)
  {
    Representable(v) && OfType(v, ty)
  }

  // ── The conversions ────────────────────────────────────────────────────────

  /** `i128::checked_mul`. */
  function CheckedMul(a: int, b: int): Option<int>
  {
    if I128Min <= a * b <= I128Max then Some(a * b) else None
  }

  /** `unsigned_abs() >= pow10(precision)` refuses. */
  function WithinPrecision(unscaled: int, precision: nat, scale: nat): Option<Value>
  {
    if -Pow10(precision) < unscaled < Pow10(precision) then Some(Decimal(Dec(unscaled, scale))) else None
  }

  function ScaledUp(u: int, m: int, precision: nat, scale: nat): Option<Value>
  {
    var scaled := CheckedMul(u, m);
    if scaled.None? then None else WithinPrecision(scaled.value, precision, scale)
  }

  function Rescale(d: Dec, precision: nat, scale: nat): Option<Value>
  {
    if scale >= d.scale then
      ScaledUp(d.unscaled, Pow10(scale - d.scale), precision, scale)
    else
      Pow10Positive(d.scale - scale);
      var drop := Pow10(d.scale - scale);
      if d.unscaled % drop != 0 then None else WithinPrecision(d.unscaled / drop, precision, scale)
  }

  function IntToDecimal(n: int, precision: nat, scale: nat): Option<Value>
  {
    ScaledUp(n, Pow10(scale), precision, scale)
  }

  function DecimalToInt(d: Dec): Option<Value>
  {
    Pow10Positive(d.scale);
    var p := Pow10(d.scale);
    if d.unscaled % p != 0 then None
    else if I64Min <= d.unscaled / p <= I64Max then Some(Int64(d.unscaled / p))
    else None
  }

  function DecimalToUint(d: Dec): Option<Value>
  {
    Pow10Positive(d.scale);
    var p := Pow10(d.scale);
    if d.unscaled % p != 0 then None
    else if 0 <= d.unscaled / p <= U64Max then Some(UInt64(d.unscaled / p))
    else None
  }

  function FloatToInt(f: Float): Option<Value>
  {
    match f
    case NegZero => Some(Int64(0))
    case Fin(r) => if r.Floor as real == r && I64Min as real <= r < 0x8000_0000_0000_0000 as real then Some(Int64(r.Floor)) else None
    case _ => None
  }

  function FloatToUint(f: Float): Option<Value>
  {
    match f
    case NegZero => Some(UInt64(0))
    case Fin(r) => if r.Floor as real == r && 0.0 <= r < 0x1_0000_0000_0000_0000 as real then Some(UInt64(r.Floor)) else None
    case _ => None
  }

  function DateToTimestamp(days: int): Option<Value>
  {
    var ns := days * NsPerDay;
    if I64Min <= ns <= I64Max then Some(Timestamp(ns)) else None
  }

  function Coerce(v: Value, ty: DataType): Option<Value>
    decreases v
  {
    match (v, ty)
    case (Null, _) => Some(v)
    case (Bool(_), BoolType) => Some(v)
    case (Int64(_), Int64Type) => Some(v)
    case (UInt64(_), UInt64Type) => Some(v)
    case (Float64(_), Float64Type) => Some(v)
    case (Str(_), StringType) => Some(v)
    case (Bytes(_), BytesType) => Some(v)
    case (Timestamp(_), TimestampType) => Some(v)
    case (Date(_), DateType) => Some(v)
    case (Uuid(_), UuidType) => Some(v)
    case (Ip(_), IpType) => Some(v)
    case (Decimal(d), DecimalType(p, s)) => Rescale(d, p, s)
    case (List(items), ListType(e)) =>
      if forall i :: 0 <= i < |items| ==> Coerce(items[i], e).Some?
      then Some(List(seq(|items|, i requires 0 <= i < |items| => Coerce(items[i], e).value)))
      else None
    case (Int64(n), UInt64Type) => if n >= 0 then Some(UInt64(n)) else None
    case (UInt64(n), Int64Type) => if n <= I64Max then Some(Int64(n)) else None
    case (Int64(n), Float64Type) => if -TwoPow53 <= n <= TwoPow53 then Some(Float64(Fin(n as real))) else None
    case (UInt64(n), Float64Type) => if n <= TwoPow53 then Some(Float64(Fin(n as real))) else None
    case (Int64(n), DecimalType(p, s)) => IntToDecimal(n, p, s)
    case (UInt64(n), DecimalType(p, s)) => IntToDecimal(n, p, s)
    case (Float64(f), Int64Type) => FloatToInt(f)
    case (Float64(f), UInt64Type) => FloatToUint(f)
    case (Decimal(d), Int64Type) => DecimalToInt(d)
    case (Decimal(d), UInt64Type) => DecimalToUint(d)
    case (Date(days), TimestampType) => DateToTimestamp(days)
    case _ => None
  }

  // ── What a value means, whatever its type ──────────────────────────────────

  datatype Meaning = Nothing | Number(r: real) | Instant(ns: int) | Many(items: seq<Meaning>) | Itself(v: Value)

  /** unscaled / 10^scale. */
  function Ratio(d: Dec): real
  {
    Pow10Positive(d.scale);
    d.unscaled as real / Pow10(d.scale) as real
  }

  function MeaningOf(v: Value): Meaning
  {
    match v
    case Null => Nothing
    case Int64(i) => Number(i as real)
    case UInt64(u) => Number(u as real)
    case Decimal(d) => Number(Ratio(d))
    case Float64(Fin(r)) => Number(r)
    case Float64(NegZero) => Number(0.0)
    case Date(days) => Instant(days * NsPerDay)
    case Timestamp(ns) => Instant(ns)
    case List(items) => Many(seq(|items|, i requires 0 <= i < |items| => MeaningOf(items[i])))
    case _ => Itself(v)
  }

  /** Conversions the code refuses although the target type may hold the same number or instant. */
  predicate Withheld(v: Value, ty: DataType)
    decreases v
  {
    match (v, ty)
    case (Float64(_), DecimalType(_, _)) => true
    case (Decimal(_), Float64Type) => true
    case (Int64(n), Float64Type) => n < -TwoPow53 || n > TwoPow53
    case (UInt64(n), Float64Type) => n > TwoPow53
    case (Timestamp(_), DateType) => true
    case (List(items), ListType(e)) => exists i :: 0 <= i < |items| && Withheld(items[i], e)
    case _ => false
  }

  predicate HasFloats(ty: DataType)
  {
    ty.Float64Type? || (ty.ListType? && HasFloats(ty.elem))
  }

  // ── Decimal arithmetic ─────────────────────────────────────────────────────

  lemma SameRatio(a: Dec, b: Dec)
    ensures Ratio(a) == Ratio(b) <==> a.unscaled * Pow10(b.scale) == b.unscaled * Pow10(a.scale)
  {
    Pow10Positive(a.scale);
    Pow10Positive(b.scale);
    CrossDivide(a.unscaled, Pow10(a.scale), b.unscaled, Pow10(b.scale));
  }

  lemma CrossDivide(u: int, p: int, v: int, q: int)
    requires p >= 1 && q >= 1
    ensures u as real / p as real == v as real / q as real <==> u * q == v * p
  {
    var x, y := u as real / p as real, v as real / q as real;
    assert x * p as real == u as real && y * q as real == v as real;
    assert (u * q) as real == u as real * q as real && (v * p) as real == v as real * p as real;
    var pq := p as real * q as real;
    assert u as real * q as real == x * pq by { RealAssoc(x, p as real, q as real); }
    assert v as real * p as real == y * pq by { RealAssoc(y, q as real, p as real); }
    assert pq > 0.0;
    CancelReal(x, y, pq);
  }

  lemma RealAssoc(a: real, b: real, c: real)
    ensures (a * b) * c == a * (b * c)
  {
  }

  lemma CancelReal(x: real, y: real, k: real)
    requires k > 0.0
    ensures x * k == y * k <==> x == y
  {
    if x * k == y * k { assert (x - y) * k == 0.0; }
  }

  lemma CancelFactor(x: int, y: int, k: int)
    requires k >= 1
    ensures x * k == y * k <==> x == y
  {
    if x * k == y * k {
      assert (x - y) * k == 0;
      Arith.MultipleIsFar(x - y, k);
    }
  }

  /** Equal ratios at the higher scale `s + k` and at `s`: one is 10^k times the other. */
  lemma SameRatioShift(x: int, s: nat, u: int, k: nat)
    ensures Ratio(Dec(x, s + k)) == Ratio(Dec(u, s)) <==> x == u * Pow10(k)
  {
    SameRatio(Dec(x, s + k), Dec(u, s));
    Pow10Add(s, k);
    Pow10Positive(s);
    var p, q := Pow10(s), Pow10(k);
    assert u * (p * q) == (u * q) * p by { TimesAssoc(u, q, p); assert p * q == q * p; }
    CancelFactor(x, u * q, p);
  }

  lemma IntRatio(n: int)
    ensures Ratio(Dec(n, 0)) == n as real
  {
  }

  /** A magnitude within any precision is within i128, so the checked product never costs a fit. */
  lemma PrecisionWithinI128(x: int, precision: nat)
    requires precision <= MaxScale && -Pow10(precision) < x < Pow10(precision)
    ensures I128Min <= x <= I128Max && -Pow10(MaxScale) < x < Pow10(MaxScale)
  {
    TopPower();
    Pow10Monotone(precision, MaxScale);
  }

  lemma DividesIff(u: int, d: int, x: int)
    requires d >= 1
    ensures u == x * d <==> u % d == 0 && u / d == x
  {
    if u == x * d { Arith.UniqueQuotient(u, d, x, 0); }
    if u % d == 0 && u / d == x { assert u == d * (u / d) + u % d; }
  }

  lemma ScaleUpIff(d: Dec, precision: nat, scale: nat, x: int)
    requires precision <= MaxScale && d.scale <= scale
    ensures Rescale(d, precision, scale) == Some(Decimal(Dec(x, scale)))
       <==> Ratio(Dec(x, scale)) == Ratio(d) && -Pow10(precision) < x < Pow10(precision)
  {
    var k := scale - d.scale;
    if -Pow10(precision) < x < Pow10(precision) { PrecisionWithinI128(x, precision); }
    SameRatioShift(x, d.scale, d.unscaled, k);
    ProductIff(d.unscaled, Pow10(k), precision, scale, x);
  }

  lemma ProductIff(u: int, m: int, precision: nat, scale: nat, x: int)
    requires -Pow10(precision) < x < Pow10(precision) ==> I128Min <= x <= I128Max
    ensures ScaledUp(u, m, precision, scale) == Some(Decimal(Dec(x, scale)))
       <==> x == u * m && -Pow10(precision) < x < Pow10(precision)
  {
  }

  lemma ScaleDownIff(d: Dec, precision: nat, scale: nat, x: int)
    requires scale < d.scale
    ensures Rescale(d, precision, scale) == Some(Decimal(Dec(x, scale)))
       <==> Ratio(Dec(x, scale)) == Ratio(d) && -Pow10(precision) < x < Pow10(precision)
  {
    var k := d.scale - scale;
    SameRatioShift(d.unscaled, scale, x, k);
    Pow10Positive(k);
    DividesIff(d.unscaled, Pow10(k), x);
  }

  /** Rescaling gives the one decimal of the target type with the same value, if there is one. */
  lemma RescaleIff(d: Dec, precision: nat, scale: nat, x: int)
    requires precision <= MaxScale
    ensures Rescale(d, precision, scale) == Some(Decimal(Dec(x, scale)))
       <==> Ratio(Dec(x, scale)) == Ratio(d) && -Pow10(precision) < x < Pow10(precision)
  {
    if scale >= d.scale {
      ScaleUpIff(d, precision, scale, x);
    } else {
      ScaleDownIff(d, precision, scale, x);
    }
  }

  /** Rescaling yields nothing but decimals of the target scale. */
  lemma RescaledShape(d: Dec, precision: nat, scale: nat)
    ensures Rescale(d, precision, scale).Some? ==>
              Rescale(d, precision, scale).value.Decimal? && Rescale(d, precision, scale).value.d.scale == scale
  {
  }

  lemma IntToDecimalIsRescale(n: int, precision: nat, scale: nat)
    ensures IntToDecimal(n, precision, scale) == Rescale(Dec(n, 0), precision, scale)
  {
  }

  lemma DecimalToIntIff(d: Dec, n: int)
    ensures DecimalToInt(d) == Some(Int64(n)) <==> n as real == Ratio(d) && I64Min <= n <= I64Max
    ensures n >= 0 ==> (DecimalToUint(d) == Some(UInt64(n)) <==> n as real == Ratio(d) && n <= U64Max)
  {
    Pow10Positive(d.scale);
    IntRatio(n);
    SameRatioShift(d.unscaled, 0, n, d.scale);
    DividesIff(d.unscaled, Pow10(d.scale), n);
  }

  lemma FloatToIntIff(f: Float, n: int)
    ensures FloatToInt(f) == Some(Int64(n)) <==> MeaningOf(Float64(f)) == Number(n as real) && I64Min <= n <= I64Max
    ensures n >= 0 ==> (FloatToUint(f) == Some(UInt64(n)) <==> MeaningOf(Float64(f)) == Number(n as real) && n <= U64Max)
  {
    if f.Fin? && f.r == n as real { assert f.r.Floor == n; }
  }

  // ── Exactness ──────────────────────────────────────────────────────────────

  /** Every value the code lets in is of the column's type and means what it meant. */
  lemma {:induction false} CoerceIsExact(v: Value, ty: DataType)
    requires Representable(v) && ValidType(ty) && Coerce(v, ty).Some?
    ensures Holds(Coerce(v, ty).value, ty) && MeaningOf(Coerce(v, ty).value) == MeaningOf(v)
    decreases v
  {
    var w := Coerce(v, ty).value;
    match (v, ty) {
      case (Decimal(d), DecimalType(p, s)) => DecimalFits(d, p, s, w);
      case (Int64(n), DecimalType(p, s)) => IntToDecimalIsRescale(n, p, s); DecimalFits(Dec(n, 0), p, s, w); IntRatio(n);
      case (UInt64(n), DecimalType(p, s)) => IntToDecimalIsRescale(n, p, s); DecimalFits(Dec(n, 0), p, s, w); IntRatio(n);
      case (Decimal(d), Int64Type) => DecimalToIntIff(d, w.i);
      case (Decimal(d), UInt64Type) => DecimalToIntIff(d, w.u);
      case (Float64(f), Int64Type) => FloatToIntIff(f, w.i);
      case (Float64(f), UInt64Type) => FloatToIntIff(f, w.u);
      case (List(items), ListType(e)) =>
        forall i | 0 <= i < |items| ensures Holds(w.items[i], e) && MeaningOf(w.items[i]) == MeaningOf(items[i]) {
          CoerceIsExact(items[i], e);
        }
      case _ =>
    }
  }

  lemma DecimalFits(d: Dec, p: nat, s: nat, w: Value)
    requires 1 <= p <= MaxScale && s <= p && Rescale(d, p, s) == Some(w)
    ensures Holds(w, DecimalType(p, s)) && MeaningOf(w) == Number(Ratio(d))
  {
    RescaledShape(d, p, s);
    RescaleIff(d, p, s, w.d.unscaled);
    PrecisionWithinI128(w.d.unscaled, p);
  }

  /** If the column's type has a value meaning the same, the code finds it, unless it is one of
      the withheld conversions; only a float column can hold two values of one meaning. */
  lemma {:induction false} CoerceIsComplete(v: Value, ty: DataType, w: Value)
    requires Representable(v) && ValidType(ty) && Holds(w, ty) && MeaningOf(w) == MeaningOf(v) && !Withheld(v, ty)
    ensures Coerce(v, ty).Some?
    ensures !HasFloats(ty) ==> Coerce(v, ty) == Some(w)
    decreases v
  {
    match (v, ty) {
      case (Decimal(d), DecimalType(p, s)) => RescaleIff(d, p, s, w.d.unscaled);
      case (Int64(n), DecimalType(p, s)) => IntToDecimalIsRescale(n, p, s); RescaleIff(Dec(n, 0), p, s, w.d.unscaled); IntRatio(n);
      case (UInt64(n), DecimalType(p, s)) => IntToDecimalIsRescale(n, p, s); RescaleIff(Dec(n, 0), p, s, w.d.unscaled); IntRatio(n);
      case (Decimal(d), Int64Type) => DecimalToIntIff(d, w.i);
      case (Decimal(d), UInt64Type) => DecimalToIntIff(d, w.u);
      case (Float64(f), Int64Type) => FloatToIntIff(f, w.i);
      case (Float64(f), UInt64Type) => FloatToIntIff(f, w.u);
      case (List(items), ListType(e)) => ListIsComplete(v, ty, w);
      case _ =>
    }
  }

  lemma {:induction false} ListIsComplete(v: Value, ty: DataType, w: Value)
    requires v.List? && ty.ListType?
    requires Representable(v) && ValidType(ty) && Holds(w, ty) && MeaningOf(w) == MeaningOf(v) && !Withheld(v, ty)
    ensures Coerce(v, ty).Some?
    ensures !HasFloats(ty) ==> Coerce(v, ty) == Some(w)
    decreases v, 0
  {
    assert w.List? && |w.items| == |v.items| by {
      assert |MeaningOf(v).items| == |v.items|;
      assert MeaningOf(w).Many?;
    }
    forall i | 0 <= i < |v.items|
      ensures Coerce(v.items[i], ty.elem).Some?
      ensures !HasFloats(ty) ==> Coerce(v.items[i], ty.elem) == Some(w.items[i])
    {
      assert MeaningOf(v).items[i] == MeaningOf(w).items[i];
      CoerceIsComplete(v.items[i], ty.elem, w.items[i]);
    }
    if !HasFloats(ty) { assert Coerce(v, ty).value.items == w.items; }
  }

  lemma {:induction false} WithheldIsRefused(v: Value, ty: DataType)
    requires Withheld(v, ty)
    ensures Coerce(v, ty).None?
    decreases v
  {
    if v.List? {
      var i :| 0 <= i < |v.items| && Withheld(v.items[i], ty.elem);
      WithheldIsRefused(v.items[i], ty.elem);
    }
  }

  ghost predicate HasCounterpart(v: Value, ty: DataType)
  {
    exists w :: Holds(w, ty) && MeaningOf(w) == MeaningOf(v)
  }

  /** A value fits exactly when its type's conversion is offered and the target can hold it. */
  lemma FitsIff(v: Value, ty: DataType)
    requires Representable(v) && ValidType(ty)
    ensures Coerce(v, ty).Some? <==> HasCounterpart(v, ty) && !Withheld(v, ty)
  {
    if Coerce(v, ty).Some? {
      CoerceIsExact(v, ty);
      if Withheld(v, ty) { WithheldIsRefused(v, ty); }
    } else if HasCounterpart(v, ty) && !Withheld(v, ty) {
      var w :| Holds(w, ty) && MeaningOf(w) == MeaningOf(v);
      CoerceIsComplete(v, ty, w);
    }
  }

  /** A value already of the column's type is stored as it is. */
  lemma {:induction false} CoerceKeeps(v: Value, ty: DataType)
    requires Holds(v, ty) && ValidType(ty)
    ensures Coerce(v, ty) == Some(v)
    decreases v
  {
    match v {
      case Decimal(d) => RescaleIff(d, ty.precision, ty.scale, d.unscaled);
      case List(items) =>
        forall i | 0 <= i < |items| ensures Coerce(items[i], ty.elem) == Some(items[i]) {
          CoerceKeeps(items[i], ty.elem);
        }
        assert Coerce(v, ty).value.items == items;
      case _ =>
    }
  }

  /** Going through another column first changes nothing, where neither step is withheld. */
  lemma DetourAgrees(v: Value, via: DataType, ty: DataType)
    requires Representable(v) && ValidType(via) && ValidType(ty) && !HasFloats(ty)
    requires Coerce(v, via).Some? && !Withheld(v, ty) && !Withheld(Coerce(v, via).value, ty)
    ensures Coerce(Coerce(v, via).value, ty) == Coerce(v, ty)
  {
    var u := Coerce(v, via).value;
    CoerceIsExact(v, via);
    if Coerce(u, ty).Some? {
      CoerceIsExact(u, ty);
      CoerceIsComplete(v, ty, Coerce(u, ty).value);
    } else if Coerce(v, ty).Some? {
      CoerceIsExact(v, ty);
      CoerceIsComplete(u, ty, Coerce(v, ty).value);
    }
  }
}
