/** Numerals in texts (src/types/parse.rs): exactly which integers, dates and clocks are read, and as what. */
module Numerals {
  import opened Options
  import opened Text
  import opened Calendar

  /** `Value::from_text` of trimmed text, for the integer type with range `lo ..= hi`. */
  function ReadInteger(text: string, lo: int, hi: int): Option<int>
  {
    ParseInteger(StripPlus(text), lo, hi)
  }

  predicate Minus(sign: string)
  {
    sign != [] && sign[|sign| - 1] == '-'
  }

  function Size(n: int): nat
  {
    if n < 0 then -n else n
  }

  /** The sign, then `n` in decimal behind any number of zeros. */
  predicate Writes(text: string, sign: string, n: int, width: nat)
  {
    && (if Minus(sign) then n <= 0 else n >= 0)
    && text == sign + Padded(Size(n), width)
  }

  // ── Digits ─────────────────────────────────────────────────────────────────

  lemma {:induction false} DigitsGrow(a: nat, d: nat)
    requires d < 10 && a > 0
    ensures Digits(10 * a + d) == Digits(a) + [DigitChar(d)]
  {
  }

  lemma {:induction false} PaddedGrows(a: nat, d: nat, width: nat)
    requires d < 10 && |Padded(a, width)| == width > 0
    ensures Padded(10 * a + d, width + 1) == Padded(a, width) + [DigitChar(d)]
  {
    if a > 0 {
      DigitsGrow(a, d);
      assert Zeros(width - |Digits(a)|) + Digits(a) + [DigitChar(d)] == Zeros(width - |Digits(a)|) + (Digits(a) + [DigitChar(d)]);
    } else {
      assert Padded(0, width) == Zeros(width);
      assert Padded(d, width + 1) == Zeros(width) + [DigitChar(d)];
    }
  }

  /** Digits are the number they spell, behind zeros. */
  lemma {:induction false} DigitsArePadded(s: string)
    requires s != [] && AllDigits(s)
    ensures s == Padded(Spelled(s), |s|)
  {
    var init, last := s[..|s| - 1], s[|s| - 1];
    assert s == init + [last] && last == DigitChar(DigitOf(last));
    if init != [] {
      DigitsArePadded(init);
      PaddedGrows(Spelled(init), DigitOf(last), |init|);
    }
  }

  // ── What is read ───────────────────────────────────────────────────────────

  ghost predicate OneOf(text: string, n: int, signs: set<string>)
  {
    exists sign, width :: sign in signs && Writes(text, sign, n, width)
  }

  function Signs(signed: bool): set<string>
  {
    if signed then {"", "+", "-"} else {"", "+"}
  }

  /** `strip_plus` comes before a parser that takes a plus itself. */
  function ReadSigns(signed: bool): set<string>
  {
    if signed then {"", "+", "-", "++", "+-"} else {"", "+", "++"}
  }

  lemma {:induction false} WrittenParses(text: string, sign: string, n: int, width: nat, lo: int, hi: int)
    requires sign in Signs(lo < 0) && Writes(text, sign, n, width) && lo <= n <= hi
    ensures ParseInteger(text, lo, hi) == Some(n)
  {
    PaddedSpells(Size(n), width);
    var digits := Padded(Size(n), width);
    if sign == "" { assert text == digits; } else { assert text[1..] == digits; }
  }

  lemma {:induction false} ParsedIsWritten(text: string, lo: int, hi: int)
    requires ParseInteger(text, lo, hi).Some?
    ensures OneOf(text, ParseInteger(text, lo, hi).value, Signs(lo < 0))
  {
    var n := ParseInteger(text, lo, hi).value;
    var sign := if text[0] == '+' then "+" else if lo < 0 && text[0] == '-' then "-" else "";
    var digits := text[|sign|..];
    DigitsArePadded(digits);
    assert text == sign + digits;
    assert Writes(text, sign, n, |digits|);
  }

  ghost predicate Numeral(text: string, n: int, signed: bool)
  {
    OneOf(text, n, Signs(signed))
  }

  /** The integer parser reads `n` from exactly its numerals. */
  lemma {:induction false} ParsesExactly(text: string, lo: int, hi: int, n: int)
    ensures ParseInteger(text, lo, hi) == Some(n) <==> lo <= n <= hi && Numeral(text, n, lo < 0)
  {
    if ParseInteger(text, lo, hi) == Some(n) { ParsedIsWritten(text, lo, hi); }
    if lo <= n <= hi && Numeral(text, n, lo < 0) {
      var sign, width :| sign in Signs(lo < 0) && Writes(text, sign, n, width);
      WrittenParses(text, sign, n, width, lo, hi);
    }
  }

  lemma {:induction false} WrittenStripped(text: string, sign: string, n: int, width: nat)
    requires sign in ReadSigns(true) && Writes(text, sign, n, width)
    ensures Writes(StripPlus(text), StripPlus(sign), n, width)
  {
    var digits := Padded(Size(n), width);
    assert IsDigit(digits[0]);
    assert text == sign + digits;
    if sign == "" || sign == "-" {
      assert text[0] != '+';
    } else {
      assert text[1..] == sign[1..] + digits;
    }
  }

  lemma {:induction false} StrippedWritten(text: string, sign: string, n: int, width: nat)
    requires Writes(StripPlus(text), sign, n, width)
    ensures StripPlus(text) == text || Writes(text, "+" + sign, n, width)
  {
    var digits := Padded(Size(n), width);
    if StripPlus(text) != text {
      assert text == "+" + (sign + digits) == ("+" + sign) + digits;
    }
  }

  lemma {:induction false} SignsStrip(sign: string, signed: bool)
    requires sign in ReadSigns(signed)
    ensures StripPlus(sign) in Signs(signed) && sign in ReadSigns(true)
  {
    assert "+"[1..] == "" && "++"[1..] == "+" && "+-"[1..] == "-";
  }

  lemma {:induction false} SignsUnstrip(sign: string, signed: bool)
    requires sign in Signs(signed)
    ensures sign in ReadSigns(signed) && "+" + sign in ReadSigns(signed) && sign in Signs(true)
  {
    assert "+" + "" == "+" && "+" + "+" == "++" && "+" + "-" == "+-";
  }

  lemma {:induction false} PlusMore(text: string, n: int, signed: bool)
    ensures OneOf(text, n, ReadSigns(signed)) <==> OneOf(StripPlus(text), n, Signs(signed))
  {
    if OneOf(text, n, ReadSigns(signed)) {
      var sign, width :| sign in ReadSigns(signed) && Writes(text, sign, n, width);
      SignsStrip(sign, signed);
      WrittenStripped(text, sign, n, width);
    }
    if OneOf(StripPlus(text), n, Signs(signed)) {
      var sign, width :| sign in Signs(signed) && Writes(StripPlus(text), sign, n, width);
      SignsUnstrip(sign, signed);
      StrippedWritten(text, sign, n, width);
    }
  }

  /** An integer of the type is read from exactly its digits behind zeros, an optional sign, and an
      optional plus before the sign. */
  lemma {:induction false} ReadsExactly(text: string, lo: int, hi: int, n: int)
    ensures ReadInteger(text, lo, hi) == Some(n) <==> lo <= n <= hi && OneOf(text, n, ReadSigns(lo < 0))
  {
    PlusMore(text, n, lo < 0);
    ParsesExactly(StripPlus(text), lo, hi, n);
  }

  /** So two signs are accepted. */
  lemma TwoSignsAccepted()
    ensures ReadInteger("++5", -10, 10) == Some(5) && ReadInteger("+-5", -10, 10) == Some(-5)
  {
    assert "++5"[1..] == "+5" && "+-5"[1..] == "-5" && "+5"[1..] == "5" == "-5"[1..] && "5"[..0] == "";
    assert Spelled("5") == 5;
  }

  // ── Dates and clocks ───────────────────────────────────────────────────────

  ghost predicate SpellsDate(text: string, c: Civil, y: string, m: string, d: string)
  {
    && |m| == |d| == 2 && text == y + "-" + m + "-" + d
    && Numeral(y, c.y, true) && Numeral(m, c.m, false) && Numeral(d, c.d, false)
  }

  lemma {:induction false} NumeralIsAscii(text: string, n: int, signed: bool)
    requires Numeral(text, n, signed)
    ensures IsAscii(text)
  {
    var sign, width :| sign in Signs(signed) && Writes(text, sign, n, width);
    var digits := Padded(Size(n), width);
    forall i | 0 <= i < |text| ensures text[i] as int < 128 {
      if i >= |sign| { assert text[i] == digits[i - |sign|]; }
    }
  }

  /** The date of any i64 year is read from exactly a numeral of the year and two-character numerals of
      the month and the day, where a plus may stand for the leading zero. */
  lemma {:induction false} DateReadsExactly(text: string, c: Civil)
    ensures DateFields(text) == Some(c) <==>
              IsDate(c) && I64Min <= c.y <= I64Max && exists y, m, d :: SpellsDate(text, c, y, m, d)
  {
    if DateFields(text) == Some(c) {
      var y, m, d := ReadDateIsSpelled(text, c);
    }
    if IsDate(c) && I64Min <= c.y <= I64Max && exists y, m, d :: SpellsDate(text, c, y, m, d) {
      var y, m, d :| SpellsDate(text, c, y, m, d);
      SpelledDateReads(text, c, y, m, d);
    }
  }

  lemma {:induction false} DateRejoins(y: string, rest: string)
    requires |rest| == 6 && rest[0] == '-' && rest[3] == '-'
    ensures y + rest == y + "-" + rest[1..3] + "-" + rest[4..6]
  {
    assert rest == "-" + rest[1..3] + "-" + rest[4..6];
  }

  lemma {:induction false} ReadDateIsSpelled(text: string, c: Civil) returns (y: string, m: string, d: string)
    requires DateFields(text) == Some(c)
    ensures SpellsDate(text, c, y, m, d)
  {
    var rest := text[|text| - 6..];
    y, m, d := text[..|text| - 6], rest[1..3], rest[4..6];
    DateRejoins(y, rest);
    assert text == y + rest;
    FieldsParse(c, y, m, d);
  }

  lemma {:induction false} FieldsParse(c: Civil, y: string, m: string, d: string)
    requires IsDate(c) && I64Min <= c.y <= I64Max
    ensures ParseInteger(y, I64Min, I64Max) == Some(c.y) <==> Numeral(y, c.y, true)
    ensures ParseInteger(m, 0, U32Max) == Some(c.m) <==> Numeral(m, c.m, false)
    ensures ParseInteger(d, 0, U32Max) == Some(c.d) <==> Numeral(d, c.d, false)
  {
    ParsesExactly(y, I64Min, I64Max, c.y);
    ParsesExactly(m, 0, U32Max, c.m);
    ParsesExactly(d, 0, U32Max, c.d);
  }

  lemma {:induction false} SpelledDateReads(text: string, c: Civil, y: string, m: string, d: string)
    requires IsDate(c) && I64Min <= c.y <= I64Max && SpellsDate(text, c, y, m, d)
    ensures DateFields(text) == Some(c)
  {
    FieldsParse(c, y, m, d);
    NumeralIsAscii(y, c.y, true);
    NumeralIsAscii(m, c.m, false);
    NumeralIsAscii(d, c.d, false);
    DateSlices(y, m, d);
  }

  lemma {:induction false} DateSlices(y: string, m: string, d: string)
    requires |m| == |d| == 2
    ensures var t := y + "-" + m + "-" + d;
            && |t| == |y| + 6 && t[..|y|] == y && t[|y|..][0] == '-' && t[|y|..][3] == '-'
            && t[|y|..][1..3] == m && t[|y|..][4..6] == d
            && (IsAscii(y) && IsAscii(m) && IsAscii(d) ==> IsAscii(t))
  {
    var t := y + "-" + m + "-" + d;
    assert t[|y|..] == "-" + m + "-" + d;
  }

  ghost predicate SpellsClock(text: string, secs: int, h: string, mi: string, s: string, hour: int, minute: int, second: int)
  {
    && |h| == |mi| == |s| == 2 && text == h + ":" + mi + ":" + s
    && Numeral(h, hour, true) && Numeral(mi, minute, true) && Numeral(s, second, true)
    && hour < 24 && minute < 60 && second < 60 && secs == hour * 3600 + minute * 60 + second
  }

  lemma {:induction false} TwoCharacters(text: string, n: int)
    requires |text| == 2 && Numeral(text, n, true)
    ensures -100 < n < 100
  {
    var sign, width :| sign in Signs(true) && Writes(text, sign, n, width);
    var digits := Padded(Size(n), width);
    PaddedSpells(Size(n), width);
    assert |digits| <= 2;
    FewDigits(digits);
  }

  lemma {:induction false} FewDigits(s: string)
    requires AllDigits(s) && 1 <= |s| <= 2
    ensures Spelled(s) < 100
  {
    if |s| == 1 { OneDigit(s); } else { OneDigit(s[..1]); }
  }

  /** A clock is read from exactly three two-character numerals, each bounded from above only. */
  lemma {:induction false} ClockReadsExactly(text: string, secs: int)
    ensures ParseClock(text) == Some(secs) <==>
              exists h, mi, s, hour, minute, second :: SpellsClock(text, secs, h, mi, s, hour, minute, second)
  {
    if ParseClock(text) == Some(secs) {
      var h, mi, s, hour, minute, second := ReadClockIsSpelled(text, secs);
    }
    if exists h, mi, s, hour, minute, second :: SpellsClock(text, secs, h, mi, s, hour, minute, second) {
      var h, mi, s, hour, minute, second :| SpellsClock(text, secs, h, mi, s, hour, minute, second);
      SpelledClockReads(text, secs, h, mi, s, hour, minute, second);
    }
  }

  lemma {:induction false} ReadClockIsSpelled(text: string, secs: int)
    returns (h: string, mi: string, s: string, hour: int, minute: int, second: int)
    requires ParseClock(text) == Some(secs)
    ensures SpellsClock(text, secs, h, mi, s, hour, minute, second)
  {
    h, mi, s := text[0..2], text[3..5], text[6..8];
    hour, minute, second := ParseInteger(h, I64Min, I64Max).value, ParseInteger(mi, I64Min, I64Max).value, ParseInteger(s, I64Min, I64Max).value;
    assert text == h + ":" + mi + ":" + s;
    ParsesExactly(h, I64Min, I64Max, hour);
    ParsesExactly(mi, I64Min, I64Max, minute);
    ParsesExactly(s, I64Min, I64Max, second);
  }

  lemma {:induction false} SpelledClockReads(
    text: string, secs: int, h: string, mi: string, s: string, hour: int, minute: int, second: int)
    requires SpellsClock(text, secs, h, mi, s, hour, minute, second)
    ensures ParseClock(text) == Some(secs)
  {
    FieldParses(h, hour);
    FieldParses(mi, minute);
    FieldParses(s, second);
    ClockSlices(h, mi, s);
  }

  lemma {:induction false} FieldParses(text: string, n: int)
    requires |text| == 2 && Numeral(text, n, true)
    ensures ParseInteger(text, I64Min, I64Max) == Some(n)
  {
    TwoCharacters(text, n);
    ParsesExactly(text, I64Min, I64Max, n);
  }
}
