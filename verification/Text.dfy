/** Canonical text and its parser (src/types/text.rs, src/types/parse.rs). */
module Text {
  import opened Options
  import opened Order
  import opened Calendar

  const I32Min := -0x8000_0000
  const I32Max := 0x7FFF_FFFF
  const U32Max := 0xFFFF_FFFF
  const I64Min := -0x8000_0000_0000_0000
  const I64Max := 0x7FFF_FFFF_FFFF_FFFF
  const U64Max := 0xFFFF_FFFF_FFFF_FFFF
  const I128Min := -I128Max - 1

  // ── Digits ─────────────────────────────────────────────────────────────────

  predicate IsDigit(c: char)
  {
    '0' <= c <= '9'
  }

  predicate AllDigits(s: string)
  {
    forall i :: 0 <= i < |s| ==> IsDigit(s[i])
  }

  function DigitChar(d: nat): (c: char)
    requires d < 10
    ensures IsDigit(c) && DigitOf(c) == d
  {
    '0' + d as char
  }

  function DigitOf(c: char): nat
    requires IsDigit(c)
  {
    c as int - '0' as int
  }

  /** The number a digit string spells. */
  function Spelled(s: string): nat
    requires AllDigits(s)
  {
    if s == [] then 0 else 10 * Spelled(s[..|s| - 1]) + DigitOf(s[|s| - 1])
  }

  function Digits(n: nat): (s: string)
    ensures s != [] && AllDigits(s)
  {
    if n < 10 then [DigitChar(n)] else Digits(n / 10) + [DigitChar(n % 10)]
  }

  function Zeros(k: nat): (s: string)
    ensures |s| == k && AllDigits(s)
  {
    seq(k, _ => '0')
  }

  /** `{n:0width$}` for a non-negative number. */
  function Padded(n: nat, width: nat): (s: string)
    ensures |s| >= width && s != [] && AllDigits(s)
  {
    var d := Digits(n);
    if |d| >= width then d else Zeros(width - |d|) + d
  }

  /** `{n:0width$}`: the sign counts toward the width. */
  function PaddedInt(n: int, width: nat): string
  {
    if n >= 0 then Padded(n, width)
    else "-" + Padded(-n, if width > 0 then width - 1 else 0)
  }

  lemma {:induction false} DigitsSpell(n: nat)
    ensures Spelled(Digits(n)) == n
  {
    if n >= 10 {
      DigitsSpell(n / 10);
      assert Digits(n)[..|Digits(n)| - 1] == Digits(n / 10);
    }
  }

  lemma {:induction false} LeadingZeros(k: nat, s: string)
    requires AllDigits(s)
    ensures Spelled(Zeros(k) + s) == Spelled(s)
  {
    var t := Zeros(k) + s;
    if s != [] {
      LeadingZeros(k, s[..|s| - 1]);
      assert t[..|t| - 1] == Zeros(k) + s[..|s| - 1];
    } else if k > 0 {
      LeadingZeros(k - 1, s);
      assert t[..|t| - 1] == Zeros(k - 1) + s;
    }
  }

  lemma PaddedSpells(n: nat, width: nat)
    ensures Spelled(Padded(n, width)) == n
  {
    var d := Digits(n);
    var zeros := if |d| >= width then 0 else width - |d|;
    assert Zeros(0) + d == d;
    assert Padded(n, width) == Zeros(zeros) + d;
    LeadingZeros(zeros, d);
    DigitsSpell(n);
  }

  /** How many digits a number takes. */
  lemma {:induction false} DigitsFit(n: nat, width: nat)
    requires width > 0 && n < Pow10(width)
    ensures |Digits(n)| <= width && |Padded(n, width)| == width
    decreases width
  {
    if n >= 10 {
      assert width > 1;
      DigitsFit(n / 10, width - 1);
    }
  }

  // ── Rust's integer parser ──────────────────────────────────────────────────

  /** `str::parse` for an integer type with range `lo ..= hi`: an optional `+`, or `-` when the
      type is signed, then at least one digit; anything out of range is an error. */
  function ParseInteger(s: string, lo: int, hi: int): Option<int>
  {
    var signed := s != [] && (s[0] == '+' || (lo < 0 && s[0] == '-'));
    var body := if signed then s[1..] else s;
    if body == [] || !AllDigits(body) then None
    else
      var n: int := if signed && s[0] == '-' then -(Spelled(body) as int) else Spelled(body);
      if lo <= n <= hi then Some(n) else None
  }

  lemma PaddedParses(n: int, width: nat, lo: int, hi: int)
    requires lo <= n <= hi
    ensures ParseInteger(PaddedInt(n, width), lo, hi) == Some(n)
  {
    if n >= 0 {
      PaddedSpells(n, width);
    } else {
      var w := if width > 0 then width - 1 else 0;
      PaddedSpells(-n, w);
      assert PaddedInt(n, width)[1..] == Padded(-n, w);
    }
  }

  /** INT64 and UINT64: the decimal text parses back. */
  lemma IntegerRoundTrip(n: int, lo: int, hi: int)
    requires lo <= n <= hi
    ensures ParseInteger(PaddedInt(n, 0), lo, hi) == Some(n)
  {
    PaddedParses(n, 0, lo, hi);
  }

  /** `strip_plus`. */
  function StripPlus(s: string): string
  {
    if s != [] && s[0] == '+' then s[1..] else s
  }

  // ── Splitting ──────────────────────────────────────────────────────────────

  /** The position of the first `c`, or the length. */
  function Find(s: string, c: char): (i: nat)
    ensures i <= |s| && (i < |s| ==> s[i] == c) && forall k :: 0 <= k < i ==> s[k] != c
  {
    if s == [] || s[0] == c then 0 else 1 + Find(s[1..], c)
  }

  /** `split_once`. */
  function SplitOnce(s: string, c: char): (r: Option<(string, string)>)
    ensures r.None? <==> c !in s
    ensures r.Some? ==> s == r.value.0 + [c] + r.value.1 && c !in r.value.0
  {
    var i := Find(s, c);
    if i < |s| then Some((s[..i], s[i + 1..])) else None
  }

  lemma SplitFirst(a: string, c: char, b: string)
    requires c !in a
    ensures SplitOnce(a + [c] + b, c) == Some((a, b))
  {
    var s := a + [c] + b;
    assert s[|a|] == c;
    var i := Find(s, c);
    assert i >= |a| by { assert s[..|a|] == a; assert forall k :: 0 <= k < |a| ==> a[k] in a && s[k] == a[k]; }
    assert s[..|a|] == a && s[|a| + 1..] == b;
  }

  /** `strip_suffix`. */
  function StripSuffix(s: string, c: char): Option<string>
  {
    if s != [] && s[|s| - 1] == c then Some(s[..|s| - 1]) else None
  }

  predicate IsAscii(s: string)
  {
    forall i :: 0 <= i < |s| ==> s[i] as int < 128
  }

  // ── Dates ──────────────────────────────────────────────────────────────────

  function FormatCivil(c: Civil): string
    requires IsDate(c)
  {
    PaddedInt(c.y, 4) + "-" + Padded(c.m, 2) + "-" + Padded(c.d, 2)
  }

  function FormatDate(days: int): string
  {
    DaysRoundTrip(days);
    FormatCivil(CivilFromDays(days))
  }

  /** The three fields of a date text, a real calendar date of any i64 year. */
  function DateFields(text: string): (r: Option<Civil>)
    ensures r.Some? ==> IsDate(r.value) && I64Min <= r.value.y <= I64Max
  {
    if !IsAscii(text) || |text| < 6 then None
    else
      var yearPart, rest := text[..|text| - 6], text[|text| - 6..];
      if rest[0] != '-' || rest[3] != '-' then None
      else
        var year := ParseInteger(yearPart, I64Min, I64Max);
        var month := ParseInteger(rest[1..3], 0, U32Max);
        var day := ParseInteger(rest[4..6], 0, U32Max);
        if year.None? || month.None? || day.None? then None
        else
          var c := Civil(year.value, month.value, day.value);
          if !(1 <= c.m <= 12) || c.d == 0 || c.d > DaysInMonth(c.y, c.m) then None else Some(c)
  }

  function ParseDate(text: string): Option<int>
  {
    var c := DateFields(text);
    if c.None? then None
    else
      var days := DaysFromCivil64(c.value);
      if I32Min <= days <= I32Max then Some(days) else None
  }

  lemma TwoDigits(n: nat)
    requires n < 100
    ensures |Padded(n, 2)| == 2 && Spelled(Padded(n, 2)) == n
    ensures ParseInteger(Padded(n, 2), 0, U32Max) == Some(n)
    ensures ParseInteger(Padded(n, 2), I64Min, I64Max) == Some(n)
  {
    assert Pow10(2) == 100;
    DigitsFit(n, 2);
    PaddedSpells(n, 2);
  }

  /** Years of representable dates are far inside i64. */
  lemma YearBound(days: int)
    ensures -400 * (if days >= 0 then days + 2000 else -days + 2000) <= CivilFromDays(days).y
    ensures CivilFromDays(days).y <= 400 * (if days >= 0 then days + 2000 else -days + 2000)
  {
    var era, n, mp, d := DaysHaveParts(days);
    PartsToCivil(era, n, mp, d);
    DayOfEra(era, n, mp, d);
  }

  predicate DateChars(s: string)
  {
    forall i :: 0 <= i < |s| ==> IsDigit(s[i]) || s[i] == '-'
  }

  lemma DateShape(y: string, m: string, d: string)
    requires |m| == |d| == 2 && DateChars(y) && AllDigits(m) && AllDigits(d)
    ensures var t := y + "-" + m + "-" + d;
            && DateChars(t) && |t| >= 6 && t[..|t| - 6] == y
            && t[|t| - 6..][0] == '-' && t[|t| - 6..][3] == '-'
            && t[|t| - 6..][1..3] == m && t[|t| - 6..][4..6] == d
  {
    var t, rest := y + "-" + m + "-" + d, "-" + m + "-" + d;
    assert t == y + rest;
    assert t[|t| - 6..] == rest;
    assert rest[1..3] == m && rest[4..6] == d;
  }

  lemma YearChars(y: int)
    ensures DateChars(PaddedInt(y, 4))
  {
  }

  lemma FormatCivilParts(c: Civil)
    requires IsDate(c)
    ensures var t := FormatCivil(c);
            && DateChars(t) && |t| >= 6 && t[..|t| - 6] == PaddedInt(c.y, 4)
            && t[|t| - 6..][0] == '-' && t[|t| - 6..][3] == '-'
            && t[|t| - 6..][1..3] == Padded(c.m, 2) && t[|t| - 6..][4..6] == Padded(c.d, 2)
  {
    TwoDigits(c.m);
    TwoDigits(c.d);
    YearChars(c.y);
    DateShape(PaddedInt(c.y, 4), Padded(c.m, 2), Padded(c.d, 2));
  }

  lemma FormatCivilParses(c: Civil)
    requires IsDate(c) && I64Min <= c.y <= I64Max
    ensures DateFields(FormatCivil(c)) == Some(c)
  {
    FormatCivilParts(c);
    PaddedParses(c.y, 4, I64Min, I64Max);
    TwoDigits(c.m);
    TwoDigits(c.d);
  }

  /** The dates of i32 day numbers lie far inside the years computed without overflow. */
  lemma SmallDaysStay(days: int)
    requires I32Min <= days <= I32Max
    ensures var c := CivilFromDays(days);
            && IsDate(c) && FirstYear64 <= c.y <= LastYear64 && Stays64(c) && DaysFromCivil64(c) == days
  {
    var c := CivilFromDays(days);
    DaysRoundTrip(days);
    YearBound(days);
    YearsThatStay(c);
    ExactIn64(c);
  }

  /** Every i32 date prints and parses back. */
  lemma DateRoundTrip(days: int)
    requires I32Min <= days <= I32Max
    ensures ParseDate(FormatDate(days)) == Some(days)
  {
    SmallDaysStay(days);
    FormatCivilParses(CivilFromDays(days));
  }

  /** An accepted date text is read as the date it spells if and only if its year lies in the
      range whose day numbers are computed without overflow; otherwise the day number wrapped. */
  lemma ParsedDateExactIff(text: string)
    requires ParseDate(text).Some?
    ensures var days, c := ParseDate(text).value, DateFields(text).value;
            && (CivilFromDays(days) == c <==> FirstYear64 <= c.y <= LastYear64)
            && (CivilFromDays(days) == c <==> Stays64(c))
            && ParseDate(FormatDate(days)) == Some(days)
  {
    var days, c := ParseDate(text).value, DateFields(text).value;
    SmallDaysStay(days);
    DateRoundTrip(days);
    YearsThatStay(c);
    if Stays64(c) {
      ExactIn64(c);
      CivilRoundTrip(c);
    }
  }

  /** The first of March of this year is 2^64 days from some day of the last two millennia. */
  lemma WrappedYearAccepted()
    ensures ParseDate(FormatCivil(Civil(50_505_469_855_533_200, 3, 1))) == Some(-686_283)
    ensures CivilFromDays(-686_283) == Civil(91, 1, 8)
  {
    WrappedDay();
    DayReached();
    FormatCivilParses(Civil(50_505_469_855_533_200, 3, 1));
  }

  // ── Timestamps ─────────────────────────────────────────────────────────────

  const NsPerSec := 1_000_000_000
  const NsPerDay := 86_400_000_000_000

  function FormatFraction(ns: nat): (s: string)
    ensures s == [] <==> ns == 0
  {
    if ns == 0 then ""
    else if ns % 1_000_000 == 0 then "." + Padded(ns / 1_000_000, 3)
    else if ns % 1_000 == 0 then "." + Padded(ns / 1_000, 6)
    else "." + Padded(ns, 9)
  }

  function FormatClock(secs: nat): string
  {
    Padded(secs / 3600, 2) + ":" + Padded((secs % 3600) / 60, 2) + ":" + Padded(secs % 60, 2)
  }

  /** The UTC form of section 5.6 of RFC 3339. */
  function FormatTimestamp(ns: int): string
  {
    var days, ofDay := ns / NsPerDay, ns % NsPerDay;
    FormatDate(days) + "T" + FormatTime(ofDay) + "Z"
  }

  function ParseClock(hms: string): Option<int>
  {
    if |hms| != 8 || hms[2] != ':' || hms[5] != ':' then None
    else
      var h := ParseInteger(hms[0..2], I64Min, I64Max);
      var mi := ParseInteger(hms[3..5], I64Min, I64Max);
      var s := ParseInteger(hms[6..8], I64Min, I64Max);
      if h.None? || mi.None? || s.None? then None
      else if h.value >= 24 || mi.value >= 60 || s.value >= 60 then None
      else Some(h.value * 3_600 + mi.value * 60 + s.value)
  }

  function ParseFraction(frac: Option<string>): Option<int>
  {
    if frac.None? then Some(0)
    else if frac.value == [] || |frac.value| > 9 || !AllDigits(frac.value) then None
    else Some(Spelled(frac.value) * Pow10(9 - |frac.value|))
  }

  function Checked(n: int): Option<int>
  {
    if I64Min <= n <= I64Max then Some(n) else None
  }

  /** The date and time parts: `T...Z`, or a space and an optional `Z`. */
  function SplitTimestamp(text: string): Option<(string, string)>
  {
    var byT := SplitOnce(text, 'T');
    if byT.Some? then
      var t := StripSuffix(byT.value.1, 'Z');
      if t.Some? then Some((byT.value.0, t.value)) else None
    else
      var bySpace := SplitOnce(text, ' ');
      if bySpace.None? then None
      else
        var t := StripSuffix(bySpace.value.1, 'Z');
        Some((bySpace.value.0, if t.Some? then t.value else bySpace.value.1))
  }

  function ParseTimestamp(text: string): Option<int>
  {
    if !IsAscii(text) then None
    else
      var whole := ParseDate(text);
      if whole.Some? then Checked(whole.value * NsPerDay)
      else
        var parts := SplitTimestamp(text);
        if parts.None? then None
        else
          var days := ParseDate(parts.value.0);
          if days.None? then None else ParseTime(days.value, parts.value.1)
  }

  function ParseTime(days: int, time: string): Option<int>
  {
    var dot := SplitOnce(time, '.');
    var secs := ParseClock(if dot.Some? then dot.value.0 else time);
    var frac := ParseFraction(if dot.Some? then Some(dot.value.1) else None);
    if secs.None? || frac.None? then None else Instant(days, secs.value, frac.value)
  }

  function Instant(days: int, secs: int, frac: int): Option<int>
  {
    var day := Checked(days * NsPerDay);
    if day.None? then None else Checked(day.value + secs * NsPerSec + frac)
  }

  predicate ClockChars(s: string)
  {
    forall i :: 0 <= i < |s| ==> IsDigit(s[i]) || s[i] == ':' || s[i] == '.'
  }

  lemma ClockShape(h: string, mi: string, sec: string)
    requires |h| == |mi| == |sec| == 2 && AllDigits(h) && AllDigits(mi) && AllDigits(sec)
    ensures var t := h + ":" + mi + ":" + sec;
            && ClockChars(t) && '.' !in t && |t| == 8 && t[2] == ':' && t[5] == ':'
            && t[0..2] == h && t[3..5] == mi && t[6..8] == sec
  {
    ClockSlices(h, mi, sec);
  }

  lemma ClockSlices(h: string, mi: string, sec: string)
    requires |h| == |mi| == |sec| == 2
    ensures var t := h + ":" + mi + ":" + sec;
            |t| == 8 && t[2] == ':' && t[5] == ':' && t[0..2] == h && t[3..5] == mi && t[6..8] == sec
  {
    var t := h + ":" + mi + ":" + sec;
    assert t[0..2] == h && t[3..5] == mi && t[6..8] == sec;
  }

  lemma ClockParses(secs: nat)
    requires secs < 86_400
    ensures ParseClock(FormatClock(secs)) == Some(secs)
    ensures |FormatClock(secs)| == 8 && ClockChars(FormatClock(secs)) && '.' !in FormatClock(secs)
  {
    var h, mi, s := secs / 3600, (secs % 3600) / 60, secs % 60;
    TwoDigits(h);
    TwoDigits(mi);
    TwoDigits(s);
    ClockShape(Padded(h, 2), Padded(mi, 2), Padded(s, 2));
    ClockFields(secs);
  }

  lemma ClockFields(secs: nat)
    requires secs < 86_400
    ensures secs == (secs / 3600) * 3600 + ((secs % 3600) / 60) * 60 + secs % 60
  {
  }

  lemma FractionPowers()
    ensures Pow10(0) == 1 && Pow10(3) == 1_000 && Pow10(6) == 1_000_000 && Pow10(9) == NsPerSec
  {
    Pow10Add(3, 3);
    Pow10Add(6, 3);
  }

  /** The three fraction widths all denote the same nanoseconds. */
  lemma {:induction false} FractionParses(ns: nat)
    requires 0 < ns < NsPerSec
    ensures var f := FormatFraction(ns);
            f != [] && f[0] == '.' && ParseFraction(Some(f[1..])) == Some(ns) && AllDigits(f[1..])
  {
    FractionPowers();
    if ns % 1_000_000 == 0 {
      var n := ns / 1_000_000;
      assert ns == n * 1_000_000 && n < 1_000;
      FractionGroup(n, 3);
    } else if ns % 1_000 == 0 {
      var n := ns / 1_000;
      assert ns == n * 1_000 && n < 1_000_000;
      FractionGroup(n, 6);
    } else {
      FractionGroup(ns, 9);
    }
  }

  lemma {:induction false} FractionGroup(n: nat, width: nat)
    requires 0 < width <= 9 && n < Pow10(width)
    ensures var f := "." + Padded(n, width);
            f[0] == '.' && AllDigits(f[1..]) && ParseFraction(Some(f[1..])) == Some(n * Pow10(9 - width))
  {
    assert ("." + Padded(n, width))[1..] == Padded(n, width);
    DigitsFit(n, width);
    PaddedSpells(n, width);
  }

  function FormatTime(ofDay: nat): string
  {
    FormatClock(ofDay / NsPerSec) + FormatFraction(ofDay % NsPerSec)
  }

  /** The time part splits at its dot, if it has one. */
  lemma TimeShape(ofDay: nat)
    requires ofDay < NsPerDay
    ensures var secs, ns := ofDay / NsPerSec, ofDay % NsPerSec;
            var dot := SplitOnce(FormatTime(ofDay), '.');
            && (ns == 0 ==> dot.None? && FormatTime(ofDay) == FormatClock(secs))
            && (ns != 0 ==> dot == Some((FormatClock(secs), FormatFraction(ns)[1..])))
            && |FormatTime(ofDay)| >= 8 && ClockChars(FormatTime(ofDay))
  {
    var secs, ns := ofDay / NsPerSec, ofDay % NsPerSec;
    ClockParses(secs);
    var clock, frac := FormatClock(secs), FormatFraction(ns);
    if ns == 0 {
      assert clock + frac == clock;
    } else {
      FractionParses(ns);
      assert frac == ['.'] + frac[1..];
      assert clock + frac == clock + ['.'] + frac[1..];
      SplitFirst(clock, '.', frac[1..]);
    }
  }

  lemma TimeParses(days: int, ofDay: nat)
    requires ofDay < NsPerDay
    ensures ParseTime(days, FormatTime(ofDay)) == Instant(days, ofDay / NsPerSec, ofDay % NsPerSec)
  {
    var secs, ns := ofDay / NsPerSec, ofDay % NsPerSec;
    TimeShape(ofDay);
    ClockParses(secs);
    if ns != 0 { FractionParses(ns); }
  }

  /** No `-` among the last six characters: not a date. */
  lemma TimeIsNoDate(head: string, time: string)
    requires |time| >= 8 && ClockChars(time)
    ensures ParseDate(head + "T" + time + "Z").None?
  {
    var t := head + "T" + time + "Z";
    assert t[|t| - 6..][0] == time[|time| - 5];
  }

  lemma SplitsAtT(date: string, time: string)
    requires DateChars(date) && ClockChars(time)
    ensures SplitTimestamp(date + "T" + time + "Z") == Some((date, time))
    ensures IsAscii(date + "T" + time + "Z")
  {
    var rest := time + "Z";
    assert date + "T" + time + "Z" == date + ['T'] + rest;
    SplitFirst(date, 'T', rest);
    assert rest[..|rest| - 1] == time;
  }

  /** The first day whose midnight fits i64: 1677-09-22. */
  const FirstDay := -106_751

  /** A printed timestamp parses back exactly when its day's midnight fits i64: everything but
      the partial day above `i64::MIN`, which prints and is then rejected. */
  lemma TimestampRoundTrip(ns: int)
    requires I64Min <= ns <= I64Max
    ensures ParseTimestamp(FormatTimestamp(ns)) == if ns >= FirstDay * NsPerDay then Some(ns) else None
  {
    TimestampFields(ns);
    TimeParses(ns / NsPerDay, ns % NsPerDay);
    InstantOf(ns);
  }

  lemma InstantOf(ns: int)
    requires I64Min <= ns <= I64Max
    ensures var days, ofDay := ns / NsPerDay, ns % NsPerDay;
            Instant(days, ofDay / NsPerSec, ofDay % NsPerSec) == if ns >= FirstDay * NsPerDay then Some(ns) else None
  {
    DayOfTimestamp(ns);
  }

  lemma TimestampFields(ns: int)
    requires I64Min <= ns <= I64Max
    ensures ParseTimestamp(FormatTimestamp(ns)) == ParseTime(ns / NsPerDay, FormatTime(ns % NsPerDay))
  {
    var days, ofDay := ns / NsPerDay, ns % NsPerDay;
    DaysRoundTrip(days);
    FormatCivilParts(CivilFromDays(days));
    TimeShape(ofDay);
    TimeIsNoDate(FormatDate(days), FormatTime(ofDay));
    SplitsAtT(FormatDate(days), FormatTime(ofDay));
    DayOfTimestamp(ns);
    DateRoundTrip(days);
  }

  lemma DayOfTimestamp(ns: int)
    requires I64Min <= ns <= I64Max
    ensures I32Min <= ns / NsPerDay <= I32Max && ns == (ns / NsPerDay) * NsPerDay + ns % NsPerDay
    ensures var ofDay := ns % NsPerDay; ofDay == (ofDay / NsPerSec) * NsPerSec + ofDay % NsPerSec
    ensures ns >= FirstDay * NsPerDay <==> I64Min <= (ns / NsPerDay) * NsPerDay <= I64Max
  {
  }

  lemma TimestampRoundTripFails()
    ensures ParseTimestamp(FormatTimestamp(I64Min)) == None
  {
    TimestampRoundTrip(I64Min);
  }

  // ── Every spelling of a timestamp ──────────────────────────────────────────

  lemma {:induction false} IntegerChars(s: string, lo: int, hi: int)
    requires ParseInteger(s, lo, hi).Some?
    ensures forall i :: 0 <= i < |s| ==> IsDigit(s[i]) || s[i] == '-' || s[i] == '+'
  {
    if s[0] == '+' || (lo < 0 && s[0] == '-') {
      forall i | 0 < i < |s| ensures IsDigit(s[i]) { assert s[1..][i - 1] == s[i]; }
    }
  }

  /** No separator, and only ASCII. */
  predicate Unbroken(s: string)
  {
    forall i :: 0 <= i < |s| ==> s[i] != 'T' && s[i] != ' ' && s[i] as int < 128
  }

  predicate DateChar(c: char)
  {
    IsDigit(c) || c == '-' || c == '+'
  }

  lemma {:induction false} DateFieldChars(date: string, i: nat)
    requires DateFields(date).Some? && i < |date|
    ensures DateChar(date[i])
  {
    var n := |date| - 6;
    var y, rest := date[..n], date[n..];
    if i < n {
      IntegerChars(y, I64Min, I64Max);
      assert y[i] == date[i];
    } else {
      var j := i - n;
      assert rest[j] == date[i];
      if 1 <= j < 3 {
        IntegerChars(rest[1..3], 0, U32Max);
        assert rest[1..3][j - 1] == rest[j];
      } else if 4 <= j {
        IntegerChars(rest[4..6], 0, U32Max);
        assert rest[4..6][j - 4] == rest[j];
      }
    }
  }

  lemma {:induction false} DateIsUnbroken(date: string)
    requires ParseDate(date).Some?
    ensures Unbroken(date)
  {
    forall i | 0 <= i < |date| ensures DateChar(date[i]) { DateFieldChars(date, i); }
  }

  lemma {:induction false} NoDate(text: string, i: nat)
    requires i < |text| && (text[i] == 'T' || text[i] == ' ')
    ensures ParseDate(text).None?
  {
    if ParseDate(text).Some? { DateFieldChars(text, i); }
  }

  lemma {:induction false} AsciiJoin(a: string, c: char, b: string)
    requires IsAscii(a) && IsAscii(b) && c as int < 128
    ensures IsAscii(a + [c] + b)
  {
  }

  /** The text splits at its separator. */
  lemma {:induction false} Splits(date: string, rest: string)
    requires Unbroken(date)
    ensures SplitTimestamp(date + ['T'] + rest) ==
              if StripSuffix(rest, 'Z').Some? then Some((date, StripSuffix(rest, 'Z').value)) else None
    ensures 'T' !in rest ==>
              SplitTimestamp(date + [' '] + rest) ==
              Some((date, if StripSuffix(rest, 'Z').Some? then StripSuffix(rest, 'Z').value else rest))
  {
    SplitFirst(date, 'T', rest);
    SplitFirst(date, ' ', rest);
  }

  lemma {:induction false} WithSeparator(date: string, c: char, rest: string)
    requires ParseDate(date).Some? && IsAscii(rest) && (c == 'T' || c == ' ')
    ensures ParseTimestamp(date + [c] + rest) ==
              var parts := SplitTimestamp(date + [c] + rest);
              if parts.None? then None
              else if ParseDate(parts.value.0).None? then None
              else ParseTime(ParseDate(parts.value.0).value, parts.value.1)
  {
    DateIsUnbroken(date);
    AsciiJoin(date, c, rest);
    assert (date + [c] + rest)[|date|] == c;
    NoDate(date + [c] + rest, |date|);
  }

  /** What a suffix does: without `Z` at the end there is none to strip. */
  lemma {:induction false} Suffix(time: string)
    requires time != [] ==> time[|time| - 1] != 'Z'
    ensures StripSuffix(time, 'Z').None? && StripSuffix(time + ['Z'], 'Z') == Some(time)
    ensures IsAscii(time) ==> IsAscii(time + ['Z'])
    ensures 'T' !in time ==> 'T' !in time + ['Z']
  {
  }

  /** `T` and `Z`, a space alone, or a space and `Z`: the same timestamp. `T` without `Z` is none. */
  lemma {:induction false} FormsAgree(date: string, time: string)
    requires ParseDate(date).Some? && IsAscii(time) && 'T' !in time && (time != [] ==> time[|time| - 1] != 'Z')
    ensures ParseTimestamp(date + ['T'] + (time + ['Z'])) == ParseTime(ParseDate(date).value, time)
    ensures ParseTimestamp(date + [' '] + time) == ParseTime(ParseDate(date).value, time)
    ensures ParseTimestamp(date + [' '] + (time + ['Z'])) == ParseTime(ParseDate(date).value, time)
    ensures ParseTimestamp(date + ['T'] + time) == None
  {
    DateIsUnbroken(date);
    Suffix(time);
    Splits(date, time);
    Splits(date, time + ['Z']);
    WithSeparator(date, 'T', time);
    WithSeparator(date, 'T', time + ['Z']);
    WithSeparator(date, ' ', time);
    WithSeparator(date, ' ', time + ['Z']);
  }

  /** A date alone is its midnight, as far as i64 reaches. */
  lemma {:induction false} BareDateIsMidnight(date: string)
    requires ParseDate(date).Some?
    ensures ParseTimestamp(date) ==
              if -106_751 <= ParseDate(date).value <= 106_751 then Some(ParseDate(date).value * NsPerDay) else None
    ensures ParseTimestamp(date) == ParseTimestamp(date + [' '] + "00:00:00")
  {
    BareDate(date);
    Midnight();
    AtMidnight(date, "00:00:00", 0);
  }

  lemma {:induction false} ClockIsPlain(time: string)
    requires ClockChars(time) && time != []
    ensures IsAscii(time) && 'T' !in time && time[|time| - 1] != 'Z'
  {
  }

  lemma {:induction false} AtMidnight(date: string, time: string, ofDay: nat)
    requires ParseDate(date).Some? && ofDay == 0 && time == FormatTime(ofDay)
    ensures ParseTimestamp(date + [' '] + time) == Checked(ParseDate(date).value * NsPerDay)
  {
    TimeShape(ofDay);
    ClockIsPlain(time);
    TimeParses(ParseDate(date).value, ofDay);
    FormsAgree(date, time);
  }

  lemma {:induction false} BareDate(date: string)
    requires ParseDate(date).Some?
    ensures ParseTimestamp(date) == Checked(ParseDate(date).value * NsPerDay)
  {
  }

  lemma {:induction false} Midnight()
    ensures FormatTime(0) == "00:00:00"
  {
    assert Padded(0, 2) == "00" by {
      assert Digits(0) == "0";
      assert Zeros(1) == "0";
    }
    assert FormatClock(0) == "00:00:00";
    assert FormatFraction(0) == "";
  }

  /** Nothing else is accepted. */
  lemma {:induction false} AcceptedForms(text: string)
    requires ParseTimestamp(text).Some?
    ensures ParseDate(text).Some? || exists date: string, time: string :: Spells(text, date, time)
  {
    if ParseDate(text).None? {
      var (date, time) := SplitTimestamp(text).value;
      SplitParts(text);
      assert Spells(text, date, time);
    }
  }

  ghost predicate Spells(text: string, date: string, time: string)
  {
    && (text == date + ['T'] + (time + ['Z']) || text == date + [' '] + time || text == date + [' '] + (time + ['Z']))
    && ParseDate(date).Some? && ParseTime(ParseDate(date).value, time) == ParseTimestamp(text)
  }

  lemma {:induction false} Stripped(rest: string)
    requires StripSuffix(rest, 'Z').Some?
    ensures rest == StripSuffix(rest, 'Z').value + ['Z']
  {
  }

  lemma {:induction false} SplitParts(text: string)
    requires SplitTimestamp(text).Some?
    ensures var (date, time) := SplitTimestamp(text).value;
            text == date + ['T'] + (time + ['Z']) || text == date + [' '] + time || text == date + [' '] + (time + ['Z'])
  {
    var byT := SplitOnce(text, 'T');
    var rest := if byT.Some? then byT.value.1 else SplitOnce(text, ' ').value.1;
    if StripSuffix(rest, 'Z').Some? { Stripped(rest); }
  }

  /** A fraction is accepted exactly with one to nine digits, and stands for that part of a second. */
  lemma {:induction false} FractionIs(f: string)
    ensures ParseFraction(Some(f)).Some? <==> 1 <= |f| <= 9 && AllDigits(f)
    ensures ParseFraction(Some(f)).Some? ==> ParseFraction(Some(f)).value * Pow10(|f|) == Spelled(f) * NsPerSec
  {
    if 1 <= |f| <= 9 && AllDigits(f) {
      FractionPowers();
      Pow10Add(9 - |f|, |f|);
      TimesAssoc(Spelled(f), Pow10(9 - |f|), Pow10(|f|));
    }
  }

  // ── Signs inside the clock ─────────────────────────────────────────────────

  /** A two-character field with a minus sign and a non-zero digit. */
  predicate Negative(field: string)
    requires |field| == 2
  {
    field[0] == '-' && field[1] != '0'
  }

  lemma FieldSign(field: string)
    requires |field| == 2 && ParseInteger(field, I64Min, I64Max).Some?
    ensures ParseInteger(field, I64Min, I64Max).value < 0 <==> Negative(field)
  {
    if field[0] == '-' || field[0] == '+' { OneDigit(field[1..]); }
  }

  lemma OneDigit(s: string)
    requires |s| == 1 && AllDigits(s)
    ensures Spelled(s) == DigitOf(s[0])
  {
    assert s[..0] == [];
  }

  /** The clock's fields are read as signed numbers bounded only from above, so a signed field is
      accepted. The fields of an accepted clock are a time of day exactly when none is negative. */
  lemma ClockWithinDay(hms: string)
    requires ParseClock(hms).Some?
    ensures var h, mi, s := ParseInteger(hms[0..2], I64Min, I64Max).value, ParseInteger(hms[3..5], I64Min, I64Max).value,
                            ParseInteger(hms[6..8], I64Min, I64Max).value;
            && ((0 <= h < 24 && 0 <= mi < 60 && 0 <= s < 60) <==>
                !Negative(hms[0..2]) && !Negative(hms[3..5]) && !Negative(hms[6..8]))
            && ParseClock(hms).value == h * 3600 + mi * 60 + s
  {
    FieldSign(hms[0..2]);
    FieldSign(hms[3..5]);
    FieldSign(hms[6..8]);
  }

  lemma NegativeHourAccepted()
    ensures ParseClock("-1" + ":" + "00" + ":" + "00") == Some(-3600)
  {
    ClockSlices("-1", "00", "00");
    assert "-1"[1..] == "1";
    OneDigit("1");
    assert "00"[..1] == "0";
    OneDigit("0");
    assert Spelled("00") == 0;
  }
}
