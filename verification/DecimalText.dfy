/** DECIMAL text (src/types/text.rs, src/types/parse.rs): what a decimal spelling denotes, and
    exactly when the parser agrees with it. */
module DecimalText {
  import opened Options
  import opened Order
  import opened Text

  datatype DecimalType = DecimalType(precision: nat, scale: nat)

  /** `DecimalType::new` accepts no other. */
  predicate ValidType(dt: DecimalType)
  {
    1 <= dt.precision <= MaxScale && dt.scale <= dt.precision
  }

  function Abs(n: int): nat
  {
    if n < 0 then -n else n
  }

  // ── Printing ───────────────────────────────────────────────────────────────

  function WholePart(n: nat, scale: nat): nat
  {
    Pow10Positive(scale);
    QuotientNat(n, Pow10(scale));
    n / Pow10(scale)
  }

  lemma QuotientNat(n: nat, p: int)
    requires p >= 1
    ensures n / p >= 0
  {
    QuotientSmaller(n, p, n / p, n % p);
  }

  function FractionPart(n: nat, scale: nat): nat
  {
    Pow10Positive(scale);
    n % Pow10(scale)
  }

  lemma PartsRecombine(n: nat, scale: nat)
    ensures n == WholePart(n, scale) * Pow10(scale) + FractionPart(n, scale)
    ensures FractionPart(n, scale) < Pow10(scale)
  {
    Pow10Positive(scale);
  }

  function FormatDecimal(unscaled: int, scale: nat): string
  {
    var sign := if unscaled < 0 then "-" else "";
    var whole, frac := WholePart(Abs(unscaled), scale), FractionPart(Abs(unscaled), scale);
    if scale == 0 then sign + Digits(whole) else sign + (Digits(whole) + "." + Padded(frac, scale))
  }

  // ── The grammar ────────────────────────────────────────────────────────────

  /** The parts of a decimal spelling: a sign, the integer digits, and the fraction if a dot. */
  datatype Spelling = Spelling(negative: bool, whole: string, fraction: Option<string>)

  function Split(text: string): Spelling
  {
    var t := StripPlus(text);
    var negative := t != [] && t[0] == '-';
    var rest := if negative then t[1..] else t;
    var dot := SplitOnce(rest, '.');
    if dot.Some? then Spelling(negative, dot.value.0, Some(dot.value.1)) else Spelling(negative, rest, None)
  }

  /** Digits, and after a dot at least one more; not both parts missing. */
  predicate WellFormed(s: Spelling)
  {
    && AllDigits(s.whole)
    && (s.fraction.None? ==> s.whole != [])
    && (s.fraction.Some? ==> s.fraction.value != [] && AllDigits(s.fraction.value))
  }

  function Places(s: Spelling): nat
  {
    if s.fraction.Some? then |s.fraction.value| else 0
  }

  function FractionValue(s: Spelling): nat
    requires WellFormed(s)
  {
    if s.fraction.Some? then Spelled(s.fraction.value) else 0
  }

  /** `whole * 10^scale + fraction * 10^(scale - k)`. */
  function Combined(whole: nat, fraction: nat, scale: nat, k: nat): int
    requires k <= scale
  {
    whole * Pow10(scale) + fraction * Pow10(scale - k)
  }

  /** A spelling denotes `Numerator / 10^Places`. */
  function Numerator(s: Spelling): int
    requires WellFormed(s)
  {
    var n := Combined(Spelled(s.whole), FractionValue(s), Places(s), Places(s));
    if s.negative then -n else n
  }

  // ── The parser ─────────────────────────────────────────────────────────────

  function CheckedI128(n: int): Option<int>
  {
    if I128Min <= n <= I128Max then Some(n) else None
  }

  /** `len() as u8` drops all but the low byte. */
  function LengthAsU8(s: string): nat
  {
    |s| % 256
  }

  /** The magnitude, before the sign and the precision check; `None` on any overflow. */
  function Magnitude(s: Spelling, scale: nat): Option<int>
    requires AllDigits(s.whole)
  {
    var whole := if s.whole == [] then Some(0) else CheckedI128(Spelled(s.whole));
    if whole.None? then None
    else if s.fraction.None? then CheckedI128(whole.value * Pow10(scale))
    else
      var f := s.fraction.value;
      if f == [] || LengthAsU8(f) > scale || !AllDigits(f) then None
      else
        var frac := CheckedI128(Spelled(f));
        if frac.None? then None else CheckedSum(whole.value, frac.value, scale, LengthAsU8(f))
  }

  function CheckedSum(whole: int, frac: int, scale: nat, k: nat): Option<int>
    requires k <= scale
  {
    var high := CheckedI128(whole * Pow10(scale));
    var low := CheckedI128(frac * Pow10(scale - k));
    if high.None? || low.None? then None else CheckedI128(high.value + low.value)
  }

  function ParseDecimal(text: string, dt: DecimalType): Option<int>
    requires ValidType(dt)
  {
    var s := Split(text);
    if s.whole == [] && (s.fraction.None? || s.fraction.value == []) then None
    else if !AllDigits(s.whole) then None
    else
      var m := Magnitude(s, dt.scale);
      if m.None? then None
      else
        var u := if s.negative then -m.value else m.value;
        if Abs(u) >= Pow10(dt.precision) then None else Some(u)
  }

  // ── Exactness ──────────────────────────────────────────────────────────────

  lemma PrecisionFits(dt: DecimalType)
    requires ValidType(dt)
    ensures 1 <= Pow10(dt.precision) <= Pow10(MaxScale) <= I128Max
  {
    Pow10Positive(dt.precision);
    Pow10Monotone(dt.precision, MaxScale);
    TopPower();
  }

  /** The magnitude scaled up from the spelling, when the fraction counts as `k` digits. */
  function Intended(s: Spelling, scale: nat, k: nat): int
    requires WellFormed(s) && k <= scale
  {
    Combined(Spelled(s.whole), FractionValue(s), scale, k)
  }

  /** What the code takes for the number of fraction digits. */
  function SeenPlaces(s: Spelling): nat
  {
    if s.fraction.Some? then LengthAsU8(s.fraction.value) else 0
  }

  lemma ProductAtLeast(a: nat, b: nat)
    requires b >= 1
    ensures a * b >= a
  {
    TimesGrows(a, b);
  }

  lemma CombinedBounds(whole: nat, fraction: nat, scale: nat, k: nat)
    requires k <= scale
    ensures var n := Combined(whole, fraction, scale, k);
            && whole <= whole * Pow10(scale) <= n
            && fraction <= fraction * Pow10(scale - k) <= n
  {
    Pow10Positive(scale);
    Pow10Positive(scale - k);
    ProductAtLeast(whole, Pow10(scale));
    ProductAtLeast(fraction, Pow10(scale - k));
  }

  /** No overflow check ever refuses a value that the precision check would keep. */
  lemma MagnitudeExact(s: Spelling, dt: DecimalType)
    requires ValidType(dt) && WellFormed(s) && SeenPlaces(s) <= dt.scale
    ensures var m, n := Magnitude(s, dt.scale), Intended(s, dt.scale, SeenPlaces(s));
            && n >= 0
            && (n < Pow10(dt.precision) ==> m == Some(n))
            && (m.Some? ==> m == Some(n))
  {
    var w, x, k := Spelled(s.whole), FractionValue(s), SeenPlaces(s);
    CheckedSumExact(w, x, dt, k);
    if s.fraction.None? { assert Combined(w, x, dt.scale, k) == w * Pow10(dt.scale); }
  }

  lemma CheckedSumExact(w: nat, x: nat, dt: DecimalType, k: nat)
    requires ValidType(dt) && k <= dt.scale
    ensures var n := Combined(w, x, dt.scale, k);
            && n >= 0
            && (n < Pow10(dt.precision) ==> n <= I128Max && w <= I128Max && x <= I128Max)
            && (n <= I128Max ==> CheckedSum(w, x, dt.scale, k) == Some(n))
            && (CheckedSum(w, x, dt.scale, k).Some? ==> CheckedSum(w, x, dt.scale, k) == Some(n))
  {
    PrecisionFits(dt);
    CombinedBounds(w, x, dt.scale, k);
  }

  /** The parser's result, in terms of the spelling. */
  lemma ParseDecimalMeans(text: string, dt: DecimalType)
    requires ValidType(dt)
    ensures var s, r := Split(text), ParseDecimal(text, dt);
            r.Some? <==> WellFormed(s) && SeenPlaces(s) <= dt.scale
                         && Intended(s, dt.scale, SeenPlaces(s)) < Pow10(dt.precision)
    ensures var s, r := Split(text), ParseDecimal(text, dt);
            r.Some? ==> r.value == if s.negative then -Intended(s, dt.scale, SeenPlaces(s)) else Intended(s, dt.scale, SeenPlaces(s))
  {
    var s := Split(text);
    if WellFormed(s) && SeenPlaces(s) <= dt.scale { MagnitudeExact(s, dt); }
  }

  /** `x * 10^(scale - k) * 10^p == x * 10^scale` exactly when `k == p`, unless `x` is zero. */
  lemma ScaledTwice(x: nat, scale: nat, k: nat, p: nat)
    requires k <= scale && k <= p
    ensures (x * Pow10(scale - k)) * Pow10(p) == x * Pow10(scale) <==> k == p || x == 0
  {
    Pow10Add(scale - k, k);
    Pow10Add(k, p - k);
    var a, b, c := Pow10(scale - k), Pow10(k), Pow10(p - k);
    Pow10Positive(scale);
    assert (x * a) * (b * c) == (x * (a * b)) * c by { Reassociate(x, a, b, c); }
    var y := x * Pow10(scale);
    if k < p {
      Pow10Positive(p - k - 1);
      assert c >= 10;
      if x > 0 {
        ProductAtLeast(x, Pow10(scale));
        LargerProduct(y, c);
      }
    }
  }

  lemma Reassociate(x: int, a: int, b: int, c: int)
    ensures (x * a) * (b * c) == (x * (a * b)) * c
  {
    TimesAssoc(x * a, b, c);
    TimesAssoc(x, a, b);
  }

  lemma LargerProduct(y: int, c: int)
    requires y >= 1 && c >= 2
    ensures y * c > y
  {
    assert y * c == y + y * (c - 1);
    ProductPositive(y, c - 1);
  }

  /** Exact: the parsed value over `10^scale` is the number the text denotes. */
  ghost predicate Exact(u: int, s: Spelling, dt: DecimalType)
    requires WellFormed(s)
  {
    u * Pow10(Places(s)) == Numerator(s) * Pow10(dt.scale)
  }

  /** Counting the fraction as `k` of its `p` digits keeps the value only if `k == p` or the
      fraction is zero. */
  lemma CombinedExact(w: nat, x: nat, scale: nat, k: nat, p: nat)
    requires k <= scale && k <= p
    ensures Combined(w, x, scale, k) * Pow10(p) == Combined(w, x, p, p) * Pow10(scale) <==> k == p || x == 0
  {
    var a, b, t := Pow10(scale - k), Pow10(p), Pow10(scale);
    ScaledTwice(x, scale, k, p);
    assert Pow10(0) == 1;
    Spread(w, t, x, a, b);
    Spread(w, b, x, 1, t);
    assert (w * t) * b == (w * b) * t by { TimesAssoc(w, t, b); TimesAssoc(w, b, t); }
  }

  lemma Spread(w: int, t: int, x: int, a: int, b: int)
    ensures (w * t + x * a) * b == (w * t) * b + (x * a) * b
  {
  }

  /** Any text the parser accepts is parsed exactly if and only if its fraction is shorter than
      256 digits or is all zeros: the length is cut to eight bits before the scale check. */
  lemma DecimalParseExactIff(text: string, dt: DecimalType)
    requires ValidType(dt) && ParseDecimal(text, dt).Some?
    ensures WellFormed(Split(text))
    ensures Exact(ParseDecimal(text, dt).value, Split(text), dt) <==>
              Places(Split(text)) < 256 || FractionValue(Split(text)) == 0
  {
    ParseDecimalMeans(text, dt);
    ExactIff(ParseDecimal(text, dt).value, Split(text), dt);
  }

  lemma ExactIff(u: int, s: Spelling, dt: DecimalType)
    requires WellFormed(s) && SeenPlaces(s) <= dt.scale
    requires u == if s.negative then -Intended(s, dt.scale, SeenPlaces(s)) else Intended(s, dt.scale, SeenPlaces(s))
    ensures Exact(u, s, dt) <==> Places(s) < 256 || FractionValue(s) == 0
  {
    CombinedExact(Spelled(s.whole), FractionValue(s), dt.scale, SeenPlaces(s), Places(s));
    SameSign(Intended(s, dt.scale, SeenPlaces(s)), Pow10(Places(s)),
             Combined(Spelled(s.whole), FractionValue(s), Places(s), Places(s)), Pow10(dt.scale));
    assert SeenPlaces(s) == Places(s) <==> Places(s) < 256;
  }

  lemma SameSign(n: int, p: int, d: int, t: int)
    ensures (-n) * p == (-d) * t <==> n * p == d * t
  {
  }

  /** With a fraction of fewer than 256 digits the parser accepts exactly the spellings that the
      type can hold without rounding. */
  lemma {:induction false} DecimalAccepts(text: string, dt: DecimalType)
    requires ValidType(dt) && Places(Split(text)) < 256
    ensures ParseDecimal(text, dt).Some? <==>
              && WellFormed(Split(text)) && Places(Split(text)) <= dt.scale
              && Abs(Numerator(Split(text))) * Pow10(dt.scale - Places(Split(text))) < Pow10(dt.precision)
  {
    ParseDecimalMeans(text, dt);
    Representable(Split(text), dt);
  }

  /** With no place cut off, the parser's test is that the type holds the spelled number. */
  lemma {:induction false} Representable(s: Spelling, dt: DecimalType)
    requires Places(s) < 256
    ensures WellFormed(s) && SeenPlaces(s) <= dt.scale && Intended(s, dt.scale, SeenPlaces(s)) < Pow10(dt.precision) <==>
              && WellFormed(s) && Places(s) <= dt.scale
              && Abs(Numerator(s)) * Pow10(dt.scale - Places(s)) < Pow10(dt.precision)
  {
    assert SeenPlaces(s) == Places(s);
    if WellFormed(s) && Places(s) <= dt.scale { NumeratorRescales(s, dt.scale); }
  }

  lemma {:induction false} NumeratorRescales(s: Spelling, scale: nat)
    requires WellFormed(s) && Places(s) <= scale
    ensures Abs(Numerator(s)) * Pow10(scale - Places(s)) == Intended(s, scale, Places(s))
  {
    CombinedRescales(Spelled(s.whole), FractionValue(s), Places(s), scale);
  }

  lemma CombinedRescales(w: nat, x: nat, p: nat, scale: nat)
    requires p <= scale
    ensures Combined(w, x, p, p) >= 0
    ensures Combined(w, x, p, p) * Pow10(scale - p) == Combined(w, x, scale, p)
  {
    CombinedBounds(w, x, p, p);
    Pow10Add(p, scale - p);
    assert Pow10(0) == 1;
    Spread(w, Pow10(p), x, 1, Pow10(scale - p));
    TimesAssoc(w, Pow10(p), Pow10(scale - p));
  }

  /** `0.` and 256 zeros and a `5`, far below any scale, reads as `0.5`. */
  lemma LongFractionMisread()
    ensures var text := "0." + (Zeros(256) + "5"); ParseDecimal(text, DecimalType(2, 1)) == Some(5)
  {
    var f := Zeros(256) + "5";
    var text := "0." + f;
    SplitFirst("0", '.', f);
    assert text == "0" + ['.'] + f;
    assert Split(text) == Spelling(false, "0", Some(f));
    LeadingZeros(256, "5");
    assert "5"[..0] == "" && "0"[..0] == "";
    assert Spelled("5") == 5 && Spelled("0") == 0 && |f| % 256 == 1;
    var s := Split(text);
    assert Pow10(1) == 10 && Pow10(0) == 1 && Pow10(2) == 100;
    assert Intended(s, 1, 1) == 5;
    ParseDecimalMeans(text, DecimalType(2, 1));
  }

  // ── Which texts spell a decimal ────────────────────────────────────────────

  /** The text of a spelling, behind an optional plus. */
  function Written(s: Spelling, plus: bool): string
  {
    var body := if s.fraction.None? then s.whole else s.whole + "." + s.fraction.value;
    (if plus then "+" else "") + ((if s.negative then "-" else "") + body)
  }

  /** A text spells a decimal exactly when it is the text of one, and it spells no other. */
  lemma {:induction false} SpellsExactly(text: string, s: Spelling)
    requires WellFormed(s)
    ensures Split(text) == s <==> text == Written(s, false) || text == Written(s, true)
  {
    if Split(text) == s {
      SplitRejoins(text);
      PlusBack(text, s);
    }
    SplitsWritten(s);
    PlusAway(s);
  }

  lemma {:induction false} PlusBack(text: string, s: Spelling)
    requires StripPlus(text) == Written(s, false)
    ensures text == Written(s, false) || text == Written(s, true)
  {
    if text != [] && text[0] == '+' {
      assert text == "+" + text[1..];
      assert Written(s, true) == "+" + Written(s, false);
    }
  }

  lemma {:induction false} PlusAway(s: Spelling)
    requires WellFormed(s)
    ensures StripPlus(Written(s, true)) == Written(s, false) == StripPlus(Written(s, false))
  {
    var body := if s.fraction.None? then s.whole else s.whole + "." + s.fraction.value;
    assert body != [] && body[0] != '+';
    assert Written(s, true)[1..] == Written(s, false);
  }

  lemma {:induction false} SplitRejoins(text: string)
    ensures Written(Split(text), false) == StripPlus(text)
  {
    var t := StripPlus(text);
    var s := Split(text);
    var rest := if s.negative then t[1..] else t;
    assert s.negative ==> t == "-" + rest;
    assert s.fraction.Some? ==> rest == s.whole + "." + s.fraction.value;
  }

  lemma {:induction false} SplitsWritten(s: Spelling)
    requires WellFormed(s)
    ensures Split(Written(s, false)) == s
  {
    SpellingSplits(s.negative, s.whole, s.fraction);
    var body := if s.fraction.None? then s.whole else s.whole + "." + s.fraction.value;
    assert Written(s, false) == (if s.negative then "-" else "") + body;
  }

  // ── The round trip ─────────────────────────────────────────────────────────

  lemma BodySplits(whole: string, frac: Option<string>)
    requires AllDigits(whole) && (frac.Some? ==> AllDigits(frac.value))
    ensures var body := if frac.None? then whole else whole + "." + frac.value;
            SplitOnce(body, '.') == if frac.None? then None else Some((whole, frac.value))
  {
    if frac.Some? {
      assert whole + "." + frac.value == whole + ['.'] + frac.value;
      SplitFirst(whole, '.', frac.value);
    }
  }

  lemma SignSplits(negative: bool, body: string)
    requires body != [] && body[0] != '-' && body[0] != '+'
    ensures var text := (if negative then "-" else "") + body;
            && StripPlus(text) == text && (negative <==> text[0] == '-')
            && (if negative then text[1..] else text) == body
  {
    var text := (if negative then "-" else "") + body;
    assert (negative ==> text[1..] == body) && (!negative ==> text == body);
  }

  lemma SpellingSplits(negative: bool, whole: string, frac: Option<string>)
    requires (whole != [] || frac.Some?) && AllDigits(whole) && (frac.Some? ==> AllDigits(frac.value))
    ensures var body := if frac.None? then whole else whole + "." + frac.value;
            Split((if negative then "-" else "") + body) == Spelling(negative, whole, frac)
  {
    var body := if frac.None? then whole else whole + "." + frac.value;
    BodySplits(whole, frac);
    SignSplits(negative, body);
  }

  lemma FormatSplits(u: int, scale: nat)
    ensures Split(FormatDecimal(u, scale)) ==
            Spelling(u < 0, Digits(WholePart(Abs(u), scale)),
                     if scale == 0 then None else Some(Padded(FractionPart(Abs(u), scale), scale)))
  {
    var whole, frac := WholePart(Abs(u), scale), FractionPart(Abs(u), scale);
    SpellingSplits(u < 0, Digits(whole), if scale == 0 then None else Some(Padded(frac, scale)));
  }

  /** Every DECIMAL(p, s) value prints and parses back. */
  lemma DecimalRoundTrip(u: int, dt: DecimalType)
    requires ValidType(dt) && Abs(u) < Pow10(dt.precision)
    ensures ParseDecimal(FormatDecimal(u, dt.scale), dt) == Some(u)
  {
    var text := FormatDecimal(u, dt.scale);
    FormatSplits(u, dt.scale);
    FormatDenotes(u, dt.scale);
    ParseDecimalMeans(text, dt);
  }

  lemma FormatDenotes(u: int, scale: nat)
    requires scale <= MaxScale
    ensures var s := Spelling(u < 0, Digits(WholePart(Abs(u), scale)),
                              if scale == 0 then None else Some(Padded(FractionPart(Abs(u), scale), scale)));
            WellFormed(s) && SeenPlaces(s) == scale && Intended(s, scale, scale) == Abs(u)
  {
    var whole, frac := WholePart(Abs(u), scale), FractionPart(Abs(u), scale);
    PartsRecombine(Abs(u), scale);
    DigitsSpell(whole);
    assert Pow10(0) == 1;
    if scale > 0 {
      DigitsFit(frac, scale);
      PaddedSpells(frac, scale);
    }
  }
}
