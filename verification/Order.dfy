/** The total order over values and SQL equality (src/types/order.rs, src/types/value.rs). */
module Order {
  import opened Arith
  import opened Options

  datatype Ordering = Less | Equal | Greater

  /** Double-precision values as far as comparison sees them. */
  datatype Float = NegInf | NegZero | Fin(r: real) | PosInf | NaN

  const MaxScale := 38
  datatype Dec = Dec(unscaled: int, scale: nat)

  /** `Decimal::new` accepts no other. */
  predicate ValidDecimal(d: Dec)
  {
    d.scale <= MaxScale && -Pow10(MaxScale) < d.unscaled < Pow10(MaxScale)
  }

  datatype Value =
    | Null
    | Bool(b: bool)
    | Int64(i: int)
    | UInt64(u: nat)
    | Float64(f: Float)
    | Decimal(d: Dec)
    | Str(utf8: seq<nat>)
    | Bytes(bytes: seq<nat>)
    | Timestamp(ns: int)
    | Date(days: int)
    | Uuid(octets: seq<nat>)
    | Ip(octets: seq<nat>)
    | List(items: seq<Value>)

  datatype Type =
    | TBool | TInt64 | TUInt64 | TFloat64 | TDecimal | TString | TBytes | TTimestamp | TDate | TUuid | TIp
    | TList(elem: Type)

  /** A non-null value of a column of type `t`; list elements may be NULL. */
  predicate HasType(v: Value, t: Type)
    decreases v
  {
    match v
    case Null => false
    case Bool(_) => t == TBool
    case Int64(_) => t == TInt64
    case UInt64(_) => t == TUInt64
    case Float64(_) => t == TFloat64
    case Decimal(d) => t == TDecimal && ValidDecimal(d)
    case Str(_) => t == TString
    case Bytes(_) => t == TBytes
    case Timestamp(_) => t == TTimestamp
    case Date(_) => t == TDate
    case Uuid(_) => t == TUuid
    case Ip(_) => t == TIp
    case List(items) => t.TList? && forall i :: 0 <= i < |items| ==> items[i].Null? || HasType(items[i], t.elem)
  }

  // ── Powers of ten ──────────────────────────────────────────────────────────

  function Pow10(n: nat): int
  {
    if n == 0 then 1 else 10 * Pow10(n - 1)
  }

  lemma {:induction false} Pow10Positive(n: nat)
    ensures Pow10(n) >= 1
  {
    if n > 0 { Pow10Positive(n - 1); }
  }

  lemma {:induction false} Pow10Monotone(m: nat, n: nat)
    requires m <= n
    ensures Pow10(m) <= Pow10(n)
  {
    if m < n {
      Pow10Monotone(m, n - 1);
      Pow10Positive(n - 1);
    }
  }

  lemma {:induction false} Pow10Add(m: nat, n: nat)
    ensures Pow10(m + n) == Pow10(m) * Pow10(n)
  {
    if m > 0 {
      Pow10Add(m - 1, n);
      assert Pow10(m + n) == 10 * Pow10(m - 1 + n);
      assert Pow10(m) * Pow10(n) == 10 * (Pow10(m - 1) * Pow10(n)) by {
        TimesAssoc(10, Pow10(m - 1), Pow10(n));
      }
    }
  }

  lemma TimesAssoc(a: int, b: int, c: int)
    ensures (a * b) * c == a * (b * c)
  {
  }

  // ── Comparison ─────────────────────────────────────────────────────────────

  function CmpInt(x: int, y: int): Ordering
  {
    if x < y then Less else if x == y then Equal else Greater
  }

  function CmpReal(x: real, y: real): Ordering
  {
    if x < y then Less else if x == y then Equal else Greater
  }

  function Opposite(o: Ordering): Ordering
  {
    match o
    case Less => Greater
    case Equal => Equal
    case Greater => Less
  }

  /** -0.0 compares as 0.0. */
  function Norm(f: Float): Float
  {
    if f.NegZero? then Fin(0.0) else f
  }

  function Rank(f: Float): int
  {
    match f
    case NegInf => 0
    case NegZero => 1
    case Fin(_) => 1
    case PosInf => 2
    case NaN => 3
  }

  function FloatCmp(a: Float, b: Float): Ordering
  {
    if a.NaN? && b.NaN? then Equal
    else if a.NaN? then Greater
    else if b.NaN? then Less
    else
      var x, y := Norm(a), Norm(b);
      if x.Fin? && y.Fin? then CmpReal(x.r, y.r) else CmpInt(Rank(x), Rank(y))
  }

  function DecimalCmp(a: Dec, b: Dec): Ordering
    requires ValidDecimal(a) && ValidDecimal(b)
  {
    Pow10Positive(a.scale);
    Pow10Positive(b.scale);
    var pa, pb := Pow10(a.scale), Pow10(b.scale);
    var whole := CmpInt(a.unscaled / pa, b.unscaled / pb);
    if whole != Equal then whole
    else CmpInt((a.unscaled % pa) * Pow10(MaxScale - a.scale), (b.unscaled % pb) * Pow10(MaxScale - b.scale))
  }

  function BytesCmp(x: seq<nat>, y: seq<nat>): Ordering
  {
    if x == [] || y == [] then CmpInt(|x|, |y|)
    else if x[0] != y[0] then CmpInt(x[0], y[0])
    else BytesCmp(x[1..], y[1..])
  }

  /** `None` for mismatched kinds or a NULL side. */
  function TotalCmp(a: Value, b: Value): Option<Ordering>
    decreases a, if a.List? then |a.items| + 1 else 0
  {
    match (a, b)
    case (Bool(x), Bool(y)) => Some(CmpInt(if x then 1 else 0, if y then 1 else 0))
    case (Int64(x), Int64(y)) => Some(CmpInt(x, y))
    case (UInt64(x), UInt64(y)) => Some(CmpInt(x, y))
    case (Float64(x), Float64(y)) => Some(FloatCmp(x, y))
    case (Decimal(x), Decimal(y)) => if ValidDecimal(x) && ValidDecimal(y) then Some(DecimalCmp(x, y)) else None
    case (Str(x), Str(y)) => Some(BytesCmp(x, y))
    case (Bytes(x), Bytes(y)) => Some(BytesCmp(x, y))
    case (Timestamp(x), Timestamp(y)) => Some(CmpInt(x, y))
    case (Date(x), Date(y)) => Some(CmpInt(x, y))
    case (Uuid(x), Uuid(y)) => Some(BytesCmp(x, y))
    case (Ip(x), Ip(y)) => Some(BytesCmp(x, y))
    case (List(_), List(_)) => ListCmp(a, b, 0)
    case _ => None
  }

  /** Two lists from position `i` on: NULL elements sort last, a shorter prefix first. */
  function ListCmp(a: Value, b: Value, i: nat): Option<Ordering>
    requires a.List? && b.List? && i <= |a.items| && i <= |b.items|
    decreases a, |a.items| - i
  {
    if i == |a.items| || i == |b.items| then Some(CmpInt(|a.items|, |b.items|))
    else
      var o := ElemCmp(a, b, i);
      if o != Some(Equal) then o else ListCmp(a, b, i + 1)
  }

  function ElemCmp(a: Value, b: Value, i: nat): Option<Ordering>
    requires a.List? && b.List? && i < |a.items| && i < |b.items|
    decreases a, 0
  {
    var x, y := a.items[i], b.items[i];
    if x.Null? && y.Null? then Some(Equal)
    else if x.Null? then Some(Greater)
    else if y.Null? then Some(Less)
    else TotalCmp(x, y)
  }

  /** `list_cmp`'s loop. */
  method CompareLists(a: Value, b: Value) returns (o: Option<Ordering>)
    requires a.List? && b.List?
    ensures o == TotalCmp(a, b)
  {
    var i := 0;
    while i < |a.items| && i < |b.items|
      invariant 0 <= i <= |a.items| && i <= |b.items| && TotalCmp(a, b) == ListCmp(a, b, i)
    {
      var e := ElemCmp(a, b, i);
      if e.None? { return None; }
      if e.value != Equal { return e; }
      i := i + 1;
    }
    o := Some(CmpInt(|a.items|, |b.items|));
  }

  // ── Decimals compare exactly ───────────────────────────────────────────────

  const I128Max := 0x7FFF_FFFF_FFFF_FFFF_FFFF_FFFF_FFFF_FFFF

  /** The value times 10^38: an integer for every valid decimal. */
  function Scaled(d: Dec): int
    requires d.scale <= MaxScale
  {
    d.unscaled * Pow10(MaxScale - d.scale)
  }

  lemma TopPower()
    ensures Pow10(MaxScale) == 100_000_000_000_000_000_000_000_000_000_000_000_000
  {
    assert Pow10(10) == 10_000_000_000;
    Pow10Add(10, 10);
    Pow10Add(20, 10);
    assert Pow10(8) == 100_000_000;
    Pow10Add(30, 8);
  }

  /** Every intermediate of the comparison fits i128. */
  lemma FractionBounds(d: Dec)
    requires ValidDecimal(d)
    ensures Pow10(d.scale) >= 1
    ensures var p := Pow10(d.scale);
            var f := (d.unscaled % p) * Pow10(MaxScale - d.scale);
            && 0 <= f < Pow10(MaxScale) <= I128Max
            && Scaled(d) == (d.unscaled / p) * Pow10(MaxScale) + f
            && -I128Max <= d.unscaled / p <= I128Max
  {
    var p, q := Pow10(d.scale), Pow10(MaxScale - d.scale);
    Pow10Positive(d.scale);
    Pow10Positive(MaxScale - d.scale);
    Pow10Add(d.scale, MaxScale - d.scale);
    TopPower();
    var n, r := d.unscaled / p, d.unscaled % p;
    assert d.unscaled == n * p + r;
    FractionFits(r, p, q);
    SplitScaled(d.unscaled, n, p, r, q);
    QuotientSmaller(d.unscaled, p, n, r);
    assert p * q == Pow10(MaxScale) <= I128Max;
  }

  lemma FractionFits(r: int, p: int, q: int)
    requires 0 <= r < p && q >= 1
    ensures 0 <= r * q < p * q
  {
  }

  lemma SplitScaled(u: int, n: int, p: int, r: int, q: int)
    requires u == n * p + r
    ensures u * q == n * (p * q) + r * q
  {
    TimesAssoc(n, p, q);
    assert (n * p + r) * q == (n * p) * q + r * q;
  }

  lemma QuotientSmaller(u: int, p: int, n: int, r: int)
    requires p >= 1 && u == n * p + r && 0 <= r < p
    ensures u >= 0 ==> 0 <= n <= u
    ensures u < 0 ==> u <= n < 0
  {
    if n >= 0 {
      TimesGrows(n, p);
    } else {
      TimesGrows(-n - 1, p);
      assert (-n - 1) * p == -(n * p) - p;
    }
  }

  lemma TimesGrows(n: int, p: int)
    requires n >= 0 && p >= 1
    ensures n * p >= n
  {
    FractionFits(0, 1, 1);
    assert n * p == n + n * (p - 1);
    if n > 0 && p > 1 { ProductPositive(n, p - 1); }
  }

  lemma LexicographicParts(x: int, f: int, y: int, g: int, m: int)
    requires 0 <= f < m && 0 <= g < m
    ensures CmpInt(x * m + f, y * m + g) == if x != y then CmpInt(x, y) else CmpInt(f, g)
  {
    assert y * m - x * m == (y - x) * m;
    MultipleIsFar(y - x, m);
  }

  /** Integer parts first, then fractions: exactly the comparison of the scaled values. */
  lemma DecimalCmpScaled(a: Dec, b: Dec)
    requires ValidDecimal(a) && ValidDecimal(b)
    ensures DecimalCmp(a, b) == CmpInt(Scaled(a), Scaled(b))
  {
    FractionBounds(a);
    FractionBounds(b);
    var pa, pb := Pow10(a.scale), Pow10(b.scale);
    var fa, fb := (a.unscaled % pa) * Pow10(MaxScale - a.scale), (b.unscaled % pb) * Pow10(MaxScale - b.scale);
    LexicographicParts(a.unscaled / pa, fa, b.unscaled / pb, fb, Pow10(MaxScale));
  }

  /** ... which is the comparison of the rationals unscaled / 10^scale, cross-multiplied. */
  lemma DecimalCmpExact(a: Dec, b: Dec)
    requires ValidDecimal(a) && ValidDecimal(b)
    ensures DecimalCmp(a, b) == CmpInt(a.unscaled * Pow10(b.scale), b.unscaled * Pow10(a.scale))
  {
    DecimalCmpScaled(a, b);
    CrossMultiply(a, b);
    CrossMultiply(b, a);
    Pow10Positive(MaxScale);
    Pow10Positive(a.scale);
    Pow10Positive(b.scale);
    var k := Pow10(a.scale) * Pow10(b.scale);
    assert k >= 1 by { FractionFits(1, Pow10(a.scale) + 1, Pow10(b.scale)); ProductPositive(Pow10(a.scale), Pow10(b.scale)); }
    ScaleCmp(Scaled(a), Scaled(b), k);
    ScaleCmp(a.unscaled * Pow10(b.scale), b.unscaled * Pow10(a.scale), Pow10(MaxScale));
    assert Pow10(b.scale) * Pow10(a.scale) == k;
  }

  lemma ProductPositive(p: int, q: int)
    requires p >= 1 && q >= 1
    ensures p * q >= 1
  {
  }

  lemma ScaleCmp(x: int, y: int, k: int)
    requires k >= 1
    ensures CmpInt(x * k, y * k) == CmpInt(x, y)
  {
    if x < y { assert (y - x) * k >= 1; } else if x > y { assert (x - y) * k >= 1; }
  }

  lemma CrossMultiply(a: Dec, b: Dec)
    requires ValidDecimal(a) && ValidDecimal(b)
    ensures Scaled(a) * (Pow10(a.scale) * Pow10(b.scale)) == (a.unscaled * Pow10(b.scale)) * Pow10(MaxScale)
  {
    var u, q, p, r := a.unscaled, Pow10(MaxScale - a.scale), Pow10(a.scale), Pow10(b.scale);
    Pow10Add(MaxScale - a.scale, a.scale);
    RegroupFactors(u, q, p, r);
  }

  lemma RegroupFactors(u: int, q: int, p: int, r: int)
    ensures (u * q) * (p * r) == (u * r) * (q * p)
  {
    calc {
      (u * q) * (p * r);
      u * (q * (p * r)); { TimesAssoc(u, q, p * r); }
      u * ((q * p) * r); { TimesAssoc(q, p, r); }
      u * (r * (q * p));
      (u * r) * (q * p); { TimesAssoc(u, r, q * p); }
    }
  }

  // ── A total preorder on each type ──────────────────────────────────────────

  /** What two comparisons in a chain force on the third. */
  ghost predicate Chains(ab: Ordering, bc: Ordering, ac: Ordering)
  {
    ab != Greater && bc != Greater ==> ac == if ab == Less || bc == Less then Less else Equal
  }

  lemma {:induction false} BytesFlip(x: seq<nat>, y: seq<nat>)
    ensures BytesCmp(y, x) == Opposite(BytesCmp(x, y))
    ensures BytesCmp(x, y) == Equal <==> x == y
  {
    if x != [] && y != [] {
      assert x == [x[0]] + x[1..] && y == [y[0]] + y[1..];
      BytesFlip(x[1..], y[1..]);
    }
  }

  lemma {:induction false} BytesChain(x: seq<nat>, y: seq<nat>, z: seq<nat>)
    ensures Chains(BytesCmp(x, y), BytesCmp(y, z), BytesCmp(x, z))
  {
    if x != [] && y != [] && z != [] {
      BytesChain(x[1..], y[1..], z[1..]);
    }
  }

  lemma DecimalChain(x: Dec, y: Dec, z: Dec)
    requires ValidDecimal(x) && ValidDecimal(y) && ValidDecimal(z)
    ensures Chains(DecimalCmp(x, y), DecimalCmp(y, z), DecimalCmp(x, z))
    ensures DecimalCmp(y, x) == Opposite(DecimalCmp(x, y))
  {
    DecimalCmpScaled(x, y);
    DecimalCmpScaled(y, z);
    DecimalCmpScaled(x, z);
    DecimalCmpScaled(y, x);
  }

  /** Same-type values always compare, and the other way round gives the opposite answer. */
  lemma {:induction false} CmpFlips(a: Value, b: Value, t: Type)
    requires HasType(a, t) && HasType(b, t)
    ensures TotalCmp(a, b).Some? && TotalCmp(b, a) == Some(Opposite(TotalCmp(a, b).value))
    decreases a, if a.List? then |a.items| + 1 else 0
  {
    match a {
      case Decimal(x) => DecimalChain(x, b.d, x);
      case Str(x) => BytesFlip(x, b.utf8);
      case Bytes(x) => BytesFlip(x, b.bytes);
      case Uuid(x) => BytesFlip(x, b.octets);
      case Ip(x) => BytesFlip(x, b.octets);
      case List(_) => ListFlips(a, b, t, 0);
      case _ =>
    }
  }

  lemma {:induction false} ListFlips(a: Value, b: Value, t: Type, i: nat)
    requires a.List? && HasType(a, t) && HasType(b, t) && i <= |a.items| && i <= |b.items|
    ensures ListCmp(a, b, i).Some? && ListCmp(b, a, i) == Some(Opposite(ListCmp(a, b, i).value))
    decreases a, |a.items| - i
  {
    if i < |a.items| && i < |b.items| {
      if !a.items[i].Null? && !b.items[i].Null? { CmpFlips(a.items[i], b.items[i], t.elem); }
      ListFlips(a, b, t, i + 1);
    }
  }

  /** Transitivity, with the strictness a lexicographic order needs. */
  lemma {:induction false} CmpChains(a: Value, b: Value, c: Value, t: Type)
    requires HasType(a, t) && HasType(b, t) && HasType(c, t)
    ensures TotalCmp(a, b).Some? && TotalCmp(b, c).Some? && TotalCmp(a, c).Some?
    ensures Chains(TotalCmp(a, b).value, TotalCmp(b, c).value, TotalCmp(a, c).value)
    decreases a, if a.List? then |a.items| + 1 else 0
  {
    CmpFlips(a, b, t);
    CmpFlips(b, c, t);
    CmpFlips(a, c, t);
    match a {
      case Decimal(x) => DecimalChain(x, b.d, c.d);
      case Str(x) => BytesChain(x, b.utf8, c.utf8);
      case Bytes(x) => BytesChain(x, b.bytes, c.bytes);
      case Uuid(x) => BytesChain(x, b.octets, c.octets);
      case Ip(x) => BytesChain(x, b.octets, c.octets);
      case List(_) => ListChains(a, b, c, t, 0);
      case _ =>
    }
  }

  lemma {:induction false} ListChains(a: Value, b: Value, c: Value, t: Type, i: nat)
    requires a.List? && HasType(a, t) && HasType(b, t) && HasType(c, t)
    requires i <= |a.items| && i <= |b.items| && i <= |c.items|
    ensures ListCmp(a, b, i).Some? && ListCmp(b, c, i).Some? && ListCmp(a, c, i).Some?
    ensures Chains(ListCmp(a, b, i).value, ListCmp(b, c, i).value, ListCmp(a, c, i).value)
    decreases a, |a.items| - i
  {
    ListFlips(a, b, t, i);
    ListFlips(b, c, t, i);
    ListFlips(a, c, t, i);
    if i < |a.items| && i < |b.items| && i < |c.items| {
      ElemChains(a, b, c, t, i);
      ListChains(a, b, c, t, i + 1);
    }
  }

  lemma {:induction false} ElemChains(a: Value, b: Value, c: Value, t: Type, i: nat)
    requires a.List? && HasType(a, t) && HasType(b, t) && HasType(c, t)
    requires i < |a.items| && i < |b.items| && i < |c.items|
    ensures ElemCmp(a, b, i).Some? && ElemCmp(b, c, i).Some? && ElemCmp(a, c, i).Some?
    ensures Chains(ElemCmp(a, b, i).value, ElemCmp(b, c, i).value, ElemCmp(a, c, i).value)
    decreases a, 0
  {
    var x, y, z := a.items[i], b.items[i], c.items[i];
    if !x.Null? && !y.Null? { CmpFlips(x, y, t.elem); }
    if !y.Null? && !z.Null? { CmpFlips(y, z, t.elem); }
    if !x.Null? && !z.Null? { CmpFlips(x, z, t.elem); }
    if !x.Null? && !y.Null? && !z.Null? { CmpChains(x, y, z, t.elem); }
  }

  ghost predicate AtMost(a: Value, b: Value)
  {
    TotalCmp(a, b) == Some(Less) || TotalCmp(a, b) == Some(Equal)
  }

  /** On the values of any one type, `total_cmp` is a total preorder. */
  lemma TotalPreorderOnType(t: Type, a: Value, b: Value, c: Value)
    requires HasType(a, t) && HasType(b, t) && HasType(c, t)
    ensures AtMost(a, a) && (AtMost(a, b) || AtMost(b, a)) && (AtMost(a, b) && AtMost(b, c) ==> AtMost(a, c))
  {
    CmpFlips(a, a, t);
    CmpFlips(a, b, t);
    CmpChains(a, b, c, t);
  }

  /** NaN is the greatest float, and the two zeros are one. */
  lemma FloatOrder(f: Float)
    ensures AtMost(Float64(f), Float64(NaN))
    ensures AtMost(Float64(NaN), Float64(f)) <==> f.NaN?
    ensures TotalCmp(Float64(NegZero), Float64(Fin(0.0))) == Some(Equal)
  {
  }

  // ── Which order it is ──────────────────────────────────────────────────────

  /** The number a value stands for: itself, unscaled / 10^scale, days or nanoseconds. */
  function Magnitude(v: Value): real
  {
    match v
    case Int64(i) => i as real
    case UInt64(u) => u as real
    case Decimal(d) => Pow10Positive(d.scale); d.unscaled as real / Pow10(d.scale) as real
    case Timestamp(ns) => ns as real
    case Date(days) => days as real
    case _ => 0.0
  }

  function OctetsOf(v: Value): seq<nat>
  {
    match v
    case Str(s) => s
    case Bytes(s) => s
    case Uuid(s) => s
    case Ip(s) => s
    case _ => []
  }

  predicate Numeric(t: Type)
  {
    t == TInt64 || t == TUInt64 || t == TDecimal || t == TTimestamp || t == TDate
  }

  predicate Textual(t: Type)
  {
    t == TString || t == TBytes || t == TUuid || t == TIp
  }

  function RealOf(f: Float): real
  {
    if f.Fin? then f.r else 0.0
  }

  /** The extended reals with NaN above them; the two zeros are one number. */
  predicate FloatBelow(x: Float, y: Float)
  {
    if x.NaN? || y.NaN? then !x.NaN? && y.NaN?
    else if x.NegInf? || y.NegInf? then x.NegInf? && !y.NegInf?
    else if x.PosInf? || y.PosInf? then !x.PosInf? && y.PosInf?
    else RealOf(x) < RealOf(y)
  }

  /** A proper prefix, or a smaller octet at the first difference. */
  ghost predicate OctetsBelow(x: seq<nat>, y: seq<nat>)
  {
    exists k: nat :: DiffersAt(x, y, k)
  }

  predicate DiffersAt(x: seq<nat>, y: seq<nat>, k: nat)
  {
    && k <= |x| && k < |y| && x[..k] == y[..k] && (k == |x| || x[k] < y[k])
  }

  /** `a` comes before `b` among the values of type `t`, NULL after all of them: numbers, days and
      instants by what they stand for, false before true, octets as above, lists by the first
      element that differs, or by being a proper prefix. */
  ghost predicate Below(a: Value, b: Value, t: Type)
    decreases t, 1
  {
    if a.Null? || b.Null? then !a.Null? && b.Null?
    else if t == TBool then a.Bool? && b.Bool? && !a.b && b.b
    else if Numeric(t) then Magnitude(a) < Magnitude(b)
    else if t == TFloat64 then a.Float64? && b.Float64? && FloatBelow(a.f, b.f)
    else if Textual(t) then OctetsBelow(OctetsOf(a), OctetsOf(b))
    else t.TList? && a.List? && b.List? && exists k: nat :: ListDiffersAt(a.items, b.items, t, k)
  }

  ghost predicate ListDiffersAt(x: seq<Value>, y: seq<Value>, t: Type, k: nat)
    requires t.TList?
    decreases t, 0
  {
    && k <= |x| && k < |y|
    && (forall i :: 0 <= i < k ==> !Below(x[i], y[i], t.elem) && !Below(y[i], x[i], t.elem))
    && (k == |x| || Below(x[k], y[k], t.elem))
  }

  lemma {:induction false} RatioCmp(u: int, p: int, v: int, q: int)
    requires p >= 1 && q >= 1
    ensures u as real / p as real < v as real / q as real <==> u * q < v * p
  {
    var x, y := u as real / p as real, v as real / q as real;
    var k := p as real * q as real;
    assert k > 0.0;
    assert x * k == (u * q) as real by { Cancel(u, p, q); }
    assert y * k == (v * p) as real by { Cancel(v, q, p); assert k == q as real * p as real; }
    ScaleReal(x, y, k);
  }

  lemma {:induction false} Cancel(u: int, p: int, q: int)
    requires p >= 1
    ensures (u as real / p as real) * (p as real * q as real) == (u * q) as real
  {
    var x, r, s := u as real / p as real, p as real, q as real;
    assert x * r == u as real;
    assert x * (r * s) == (x * r) * s;
    ProductReal(u, q);
  }

  lemma {:induction false} ProductReal(u: int, q: int)
    ensures u as real * q as real == (u * q) as real
  {
  }

  lemma {:induction false} ScaleReal(x: real, y: real, k: real)
    requires k > 0.0
    ensures x < y <==> x * k < y * k
  {
    if x < y { assert (y - x) * k > 0.0; } else { assert (x - y) * k >= 0.0; }
  }

  lemma {:induction false} NumericLess(a: Value, b: Value, t: Type)
    requires HasType(a, t) && HasType(b, t) && Numeric(t)
    ensures TotalCmp(a, b) == Some(Less) <==> Magnitude(a) < Magnitude(b)
  {
    if t == TDecimal {
      Pow10Positive(a.d.scale);
      Pow10Positive(b.d.scale);
      DecimalCmpExact(a.d, b.d);
      RatioCmp(a.d.unscaled, Pow10(a.d.scale), b.d.unscaled, Pow10(b.d.scale));
    }
  }

  lemma {:induction false} BytesLess(x: seq<nat>, y: seq<nat>)
    ensures BytesCmp(x, y) == Less <==> OctetsBelow(x, y)
  {
    if x == [] || y == [] {
      if x == [] && y != [] { assert DiffersAt(x, y, 0); }
    } else {
      BytesLess(x[1..], y[1..]);
      if x[0] < y[0] {
        assert DiffersAt(x, y, 0);
      } else if x[0] == y[0] {
        LaterOctet(x, y);
      } else {
        forall k: nat ensures !DiffersAt(x, y, k) { if 0 < k && k <= |x| && k < |y| { assert x[..k][0] == x[0] && y[..k][0] == y[0]; } }
      }
    }
  }

  lemma {:induction false} LaterOctet(x: seq<nat>, y: seq<nat>)
    requires x != [] && y != [] && x[0] == y[0]
    ensures OctetsBelow(x, y) <==> OctetsBelow(x[1..], y[1..])
  {
    if OctetsBelow(x, y) {
      var k: nat :| DiffersAt(x, y, k);
      assert k > 0;
      assert x[1..][..k - 1] == x[..k][1..] && y[1..][..k - 1] == y[..k][1..];
      assert DiffersAt(x[1..], y[1..], k - 1);
    }
    if OctetsBelow(x[1..], y[1..]) {
      var k: nat :| DiffersAt(x[1..], y[1..], k);
      assert x[..k + 1] == [x[0]] + x[1..][..k] && y[..k + 1] == [y[0]] + y[1..][..k];
      assert DiffersAt(x, y, k + 1);
    }
  }

  ghost predicate TiesUpTo(x: seq<Value>, y: seq<Value>, t: Type, i: nat)
  {
    i <= |x| && i <= |y| && forall j :: 0 <= j < i ==> !Below(x[j], y[j], t) && !Below(y[j], x[j], t)
  }

  lemma {:induction false} ElemLess(a: Value, b: Value, t: Type, i: nat)
    requires a.List? && HasType(a, t) && HasType(b, t) && i < |a.items| && i < |b.items|
    ensures ElemCmp(a, b, i) == Some(Less) <==> Below(a.items[i], b.items[i], t.elem)
    ensures ElemCmp(a, b, i) == Some(Greater) <==> Below(b.items[i], a.items[i], t.elem)
    ensures ElemCmp(a, b, i) == Some(Equal) <==> !Below(a.items[i], b.items[i], t.elem) && !Below(b.items[i], a.items[i], t.elem)
    decreases t, 0
  {
    var x, y := a.items[i], b.items[i];
    if !x.Null? && !y.Null? {
      CmpIsLess(x, y, t.elem);
      CmpIsLess(y, x, t.elem);
      CmpFlips(x, y, t.elem);
      match TotalCmp(x, y).value {
        case Less =>
        case Equal =>
        case Greater =>
      }
    }
  }

  lemma {:induction false} ListLess(a: Value, b: Value, t: Type, i: nat)
    requires a.List? && HasType(a, t) && HasType(b, t) && TiesUpTo(a.items, b.items, t.elem, i)
    ensures ListCmp(a, b, i) == Some(Less) <==> exists k: nat :: ListDiffersAt(a.items, b.items, t, k)
    decreases t, 1, |a.items| - i
  {
    var x, y := a.items, b.items;
    forall k: nat | k < i ensures !ListDiffersAt(x, y, t, k) { }
    if i == |x| || i == |y| {
      if i < |y| { assert ListDiffersAt(x, y, t, i); }
    } else {
      ElemLess(a, b, t, i);
      if Below(x[i], y[i], t.elem) {
        assert ListDiffersAt(x, y, t, i);
      } else if Below(y[i], x[i], t.elem) {
        forall k: nat ensures !ListDiffersAt(x, y, t, k) { }
      } else {
        assert ElemCmp(a, b, i) == Some(Equal);
        ListLess(a, b, t, i + 1);
        assert ListCmp(a, b, i) == ListCmp(a, b, i + 1);
      }
    }
  }

  lemma {:induction false} CmpIsLess(a: Value, b: Value, t: Type)
    requires HasType(a, t) && HasType(b, t)
    ensures TotalCmp(a, b) == Some(Less) <==> Below(a, b, t)
    decreases t, 2
  {
    if t.TList? { ListLess(a, b, t, 0); } else { ScalarLess(a, b, t); }
  }

  lemma {:induction false} ScalarLess(a: Value, b: Value, t: Type)
    requires HasType(a, t) && HasType(b, t) && !t.TList?
    ensures TotalCmp(a, b) == Some(Less) <==> Below(a, b, t)
  {
    if Numeric(t) {
      NumericLess(a, b, t);
    } else if Textual(t) {
      TextualLess(a, b, t);
    }
  }

  lemma {:induction false} TextualLess(a: Value, b: Value, t: Type)
    requires HasType(a, t) && HasType(b, t) && Textual(t)
    ensures TotalCmp(a, b) == Some(Less) <==> OctetsBelow(OctetsOf(a), OctetsOf(b))
  {
    BytesLess(OctetsOf(a), OctetsOf(b));
  }

  /** `total_cmp` is that order on every type. */
  lemma {:induction false} TotalCmpIs(a: Value, b: Value, t: Type)
    requires HasType(a, t) && HasType(b, t)
    ensures TotalCmp(a, b) == Some(if Below(a, b, t) then Less else if Below(b, a, t) then Greater else Equal)
  {
    CmpIsLess(a, b, t);
    CmpIsLess(b, a, t);
    CmpFlips(a, b, t);
  }

  /** Scalars compare exactly when they are of one type; NULL never does. */
  lemma {:induction false} ComparableIff(a: Value, b: Value)
    requires !a.List? || !b.List?
    ensures TotalCmp(a, b).Some? <==> exists t :: HasType(a, t) && HasType(b, t)
  {
    if TotalCmp(a, b).Some? {
      var t := ScalarType(a);
      assert HasType(a, t) && HasType(b, t);
    }
    forall t | HasType(a, t) && HasType(b, t) ensures TotalCmp(a, b).Some? { CmpFlips(a, b, t); }
  }

  function ScalarType(v: Value): Type
  {
    match v
    case Int64(_) => TInt64
    case UInt64(_) => TUInt64
    case Float64(_) => TFloat64
    case Decimal(_) => TDecimal
    case Str(_) => TString
    case Bytes(_) => TBytes
    case Timestamp(_) => TTimestamp
    case Date(_) => TDate
    case Uuid(_) => TUuid
    case Ip(_) => TIp
    case _ => TBool
  }

  // ── SQL equality ───────────────────────────────────────────────────────────

  function FloatEq(a: Float, b: Float): bool
  {
    !a.NaN? && !b.NaN? && Norm(a) == Norm(b)
  }

  /** `None` is unknown: a NULL side, or kinds that do not match. */
  function SqlEq(a: Value, b: Value): Option<bool>
    decreases a, if a.List? then |a.items| + 1 else 0
  {
    match (a, b)
    case (Bool(x), Bool(y)) => Some(x == y)
    case (Int64(x), Int64(y)) => Some(x == y)
    case (UInt64(x), UInt64(y)) => Some(x == y)
    case (Float64(x), Float64(y)) => Some(FloatEq(x, y))
    case (Decimal(x), Decimal(y)) => if ValidDecimal(x) && ValidDecimal(y) then Some(DecimalCmp(x, y) == Equal) else None
    case (Str(x), Str(y)) => Some(x == y)
    case (Bytes(x), Bytes(y)) => Some(x == y)
    case (Timestamp(x), Timestamp(y)) => Some(x == y)
    case (Date(x), Date(y)) => Some(x == y)
    case (Uuid(x), Uuid(y)) => Some(x == y)
    case (Ip(x), Ip(y)) => Some(x == y)
    case (List(x), List(y)) => if |x| != |y| then Some(false) else ListEq(a, b, 0, false)
    case _ => None
  }

  /** The rest of two equally long lists; `unknown` says a NULL comparison came before. */
  function ListEq(a: Value, b: Value, i: nat, unknown: bool): Option<bool>
    requires a.List? && b.List? && |a.items| == |b.items| && i <= |a.items|
    decreases a, |a.items| - i
  {
    if i == |a.items| then (if unknown then None else Some(true))
    else
      var e := SqlEq(a.items[i], b.items[i]);
      if e == Some(false) then e else ListEq(a, b, i + 1, unknown || e.None?)
  }

  /** `list_sql_eq`'s loop, with its `unknown` flag. */
  method EqualLists(a: Value, b: Value) returns (r: Option<bool>)
    requires a.List? && b.List?
    ensures r == SqlEq(a, b)
  {
    if |a.items| != |b.items| { return Some(false); }
    var unknown, i := false, 0;
    while i < |a.items|
      invariant 0 <= i <= |a.items| && SqlEq(a, b) == ListEq(a, b, i, unknown)
    {
      var e := SqlEq(a.items[i], b.items[i]);
      if e == Some(false) { return e; }
      if e.None? { unknown := true; }
      i := i + 1;
    }
    r := if unknown then None else Some(true);
  }

  /** Lists are unequal when their lengths or some elements are, equal when all elements are, and else
      unknown. */
  lemma {:induction false} ListEqIsKleene(a: Value, b: Value)
    requires a.List? && b.List?
    ensures SqlEq(a, b) == Some(false) <==>
              || |a.items| != |b.items|
              || exists i :: 0 <= i < |a.items| && SqlEq(a.items[i], b.items[i]) == Some(false)
    ensures SqlEq(a, b) == Some(true) <==>
              |a.items| == |b.items| && forall i :: 0 <= i < |a.items| ==> SqlEq(a.items[i], b.items[i]) == Some(true)
  {
    if |a.items| == |b.items| { RestIsKleene(a, b, 0, false); }
  }

  lemma {:induction false} RestIsKleene(a: Value, b: Value, i: nat, unknown: bool)
    requires a.List? && b.List? && |a.items| == |b.items| && i <= |a.items|
    ensures ListEq(a, b, i, unknown) == Some(false) <==>
              exists k :: i <= k < |a.items| && SqlEq(a.items[k], b.items[k]) == Some(false)
    ensures ListEq(a, b, i, unknown) == Some(true) <==>
              !unknown && forall k :: i <= k < |a.items| ==> SqlEq(a.items[k], b.items[k]) == Some(true)
    decreases |a.items| - i
  {
    if i < |a.items| {
      var e := SqlEq(a.items[i], b.items[i]);
      if e.None? || e.value {
        assert e != Some(false);
        RestIsKleene(a, b, i + 1, unknown || e.None?);
      } else {
        assert e == Some(false);
      }
    }
  }

  /** Scalars of one type are equal or not; with a NULL, or of two types, it is unknown. */
  lemma {:induction false} ScalarEqKnownIff(a: Value, b: Value)
    requires !a.List? || !b.List?
    ensures SqlEq(a, b).Some? <==> exists t :: HasType(a, t) && HasType(b, t)
  {
    if SqlEq(a, b).Some? {
      var t := ScalarType(a);
      assert HasType(a, t) && HasType(b, t);
    }
  }

  /** No NULL and no NaN anywhere inside. */
  predicate Definite(v: Value)
    decreases v
  {
    match v
    case Null => false
    case Float64(f) => !f.NaN?
    case List(items) => forall i :: 0 <= i < |items| ==> Definite(items[i])
    case _ => true
  }

  lemma ScalarEqAgrees(a: Value, b: Value, t: Type)
    requires HasType(a, t) && HasType(b, t) && !a.List?
    ensures SqlEq(a, b) == Some(true) <==> TotalCmp(a, b) == Some(Equal) && Definite(a) && Definite(b)
    ensures Definite(a) && Definite(b) ==> SqlEq(a, b) == Some(TotalCmp(a, b) == Some(Equal))
  {
    if a.Str? || a.Bytes? || a.Uuid? || a.Ip? { BytesEqAgrees(a, b, t); }
  }

  lemma BytesEqAgrees(a: Value, b: Value, t: Type)
    requires HasType(a, t) && HasType(b, t) && (a.Str? || a.Bytes? || a.Uuid? || a.Ip?)
    ensures SqlEq(a, b) == Some(TotalCmp(a, b) == Some(Equal))
  {
    match a {
      case Str(x) => BytesFlip(x, b.utf8);
      case Bytes(x) => BytesFlip(x, b.bytes);
      case Uuid(x) => BytesFlip(x, b.octets);
      case Ip(x) => BytesFlip(x, b.octets);
    }
  }

  /** SQL equality is true exactly for values that compare Equal and hold no NULL and no NaN. */
  lemma {:induction false} SqlEqAgrees(a: Value, b: Value, t: Type)
    requires HasType(a, t) && HasType(b, t)
    ensures SqlEq(a, b) == Some(true) <==> TotalCmp(a, b) == Some(Equal) && Definite(a) && Definite(b)
    ensures Definite(a) && Definite(b) ==> SqlEq(a, b) == Some(TotalCmp(a, b) == Some(Equal))
    decreases a, if a.List? then |a.items| + 1 else 0
  {
    if !a.List? {
      ScalarEqAgrees(a, b, t);
    } else if |a.items| == |b.items| {
      ListEqAgrees(a, b, t, 0, false);
    } else {
      ListLengths(a, b, 0);
    }
  }

  lemma {:induction false} ListLengths(a: Value, b: Value, i: nat)
    requires a.List? && b.List? && |a.items| != |b.items| && i <= |a.items| && i <= |b.items|
    ensures ListCmp(a, b, i) != Some(Equal)
    decreases |a.items| - i
  {
    if i < |a.items| && i < |b.items| { ListLengths(a, b, i + 1); }
  }

  ghost predicate DefiniteFrom(v: Value, i: nat)
    requires v.List?
  {
    forall k :: i <= k < |v.items| ==> Definite(v.items[k])
  }

  lemma {:induction false} ListEqAgrees(a: Value, b: Value, t: Type, i: nat, unknown: bool)
    requires a.List? && HasType(a, t) && HasType(b, t) && |a.items| == |b.items| && i <= |a.items|
    ensures ListEq(a, b, i, unknown) == Some(true) <==>
              !unknown && ListCmp(a, b, i) == Some(Equal) && DefiniteFrom(a, i) && DefiniteFrom(b, i)
    ensures !unknown && DefiniteFrom(a, i) && DefiniteFrom(b, i) ==>
              ListEq(a, b, i, unknown) == Some(ListCmp(a, b, i) == Some(Equal))
    decreases a, |a.items| - i
  {
    if i < |a.items| {
      var x, y := a.items[i], b.items[i];
      ElemEqAgrees(a, b, t, i);
      DefiniteStep(a, i);
      DefiniteStep(b, i);
      var e, o := SqlEq(x, y), ElemCmp(a, b, i);
      ListEqAgrees(a, b, t, i + 1, unknown || e.None?);
      assert ListCmp(a, b, i) == if o != Some(Equal) then o else ListCmp(a, b, i + 1);
      assert ListEq(a, b, i, unknown) == if e == Some(false) then e else ListEq(a, b, i + 1, unknown || e.None?);
      match e {
        case None =>
        case Some(yes) => if yes { assert e == Some(true); } else { assert e == Some(false); }
      }
    }
  }

  lemma DefiniteStep(v: Value, i: nat)
    requires v.List? && i < |v.items|
    ensures DefiniteFrom(v, i) <==> Definite(v.items[i]) && DefiniteFrom(v, i + 1)
  {
  }

  lemma {:induction false} ElemEqAgrees(a: Value, b: Value, t: Type, i: nat)
    requires a.List? && HasType(a, t) && HasType(b, t) && i < |a.items| && i < |b.items|
    ensures var x, y := a.items[i], b.items[i];
            && (SqlEq(x, y) == Some(true) <==> ElemCmp(a, b, i) == Some(Equal) && Definite(x) && Definite(y))
            && (Definite(x) && Definite(y) ==> SqlEq(x, y) == Some(ElemCmp(a, b, i) == Some(Equal)))
    decreases a, 0
  {
    var x, y := a.items[i], b.items[i];
    if !x.Null? && !y.Null? { SqlEqAgrees(x, y, t.elem); }
  }
}
