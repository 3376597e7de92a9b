/** Hinnant's day-number conversions (src/types/parse.rs, src/types/text.rs) against the proleptic
    Gregorian calendar, given as nothing but "the next day". */
module Calendar {
  import opened Arith

  datatype Civil = Civil(y: int, m: int, d: int)

  // ── The calendar ───────────────────────────────────────────────────────────

  /** Rust's `%` and `/` on i64: truncation toward zero. */
  function TruncDiv(a: int, b: int): int
    requires b > 0
  {
    if a >= 0 then a / b else -((-a) / b)
  }

  function TruncRem(a: int, b: int): int
    requires b > 0
  {
    if a >= 0 then a % b else -((-a) % b)
  }

  function DaysInMonth(year: int, month: int): int
  {
    if month == 2 then
      if TruncRem(year, 4) == 0 && (TruncRem(year, 100) != 0 || TruncRem(year, 400) == 0) then 29 else 28
    else if month == 4 || month == 6 || month == 9 || month == 11 then 30
    else 31
  }

  predicate IsDate(c: Civil)
  {
    1 <= c.m <= 12 && 1 <= c.d <= DaysInMonth(c.y, c.m)
  }

  function NextDay(c: Civil): Civil
  {
    if c.d < DaysInMonth(c.y, c.m) then c.(d := c.d + 1)
    else if c.m < 12 then Civil(c.y, c.m + 1, 1)
    else Civil(c.y + 1, 1, 1)
  }

  // ── The conversions ────────────────────────────────────────────────────────

  function DaysFromCivil(c: Civil): int
  {
    var y := if c.m <= 2 then c.y - 1 else c.y;
    var era := EraOf(y, 400);
    DaysInEra(era, y - era * 400, if c.m > 2 then c.m - 3 else c.m + 9, c.d)
  }

  /** The 400-year cycle: a truncating division shifted down for negative dividends. */
  function EraOf(n: int, length: int): int
    requires length > 0
  {
    TruncDiv(if n >= 0 then n else n - (length - 1), length)
  }

  /** The part of `days_from_civil` after the era is known. */
  function DaysInEra(era: int, yoe: int, mp: int, d: int): int
  {
    var doy := TruncDiv(153 * mp + 2, 5) + d - 1;
    var doe := yoe * 365 + TruncDiv(yoe, 4) - TruncDiv(yoe, 100) + doy;
    era * 146_097 + doe - 719_468
  }

  function CivilFromDays(days: int): Civil
  {
    var z := days + 719_468;
    var era := EraOf(z, 146_097);
    CivilInEra(era, z - era * 146_097)
  }

  /** The part of `civil_from_days` after the era is known. */
  function CivilInEra(era: int, doe: int): Civil
  {
    var yoe := YearOfEra(doe);
    var y := yoe + era * 400;
    CivilInYear(y, doe - (365 * yoe + yoe / 4 - yoe / 100))
  }

  function YearOfEra(doe: int): int
  {
    (doe - doe / 1460 + doe / 36_524 - doe / 146_096) / 365
  }

  function CivilInYear(y: int, doy: int): Civil
  {
    var mp := (5 * doy + 2) / 153;
    var d := doy - (153 * mp + 2) / 5 + 1;
    var m := if mp < 10 then mp + 3 else mp - 9;
    Civil(if m <= 2 then y + 1 else y, m, d)
  }

  // ── Arithmetic ─────────────────────────────────────────────────────────────

  lemma EraFound(n: int, length: int, era: int, r: int)
    requires length > 0 && n == era * length + r && 0 <= r < length
    ensures EraOf(n, length) == era
  {
    UniqueQuotient(n, length, era, r);
    if n < 0 {
      var m := -n + (length - 1);
      assert m == (-era) * length + ((length - 1) - r);
      UniqueQuotient(m, length, -era, (length - 1) - r);
    }
  }

  lemma TruncRemZero(a: int, b: int)
    requires b > 0
    ensures TruncRem(a, b) == 0 <==> a % b == 0
  {
    if a < 0 {
      var n := -a;
      assert n == (n / b) * b + n % b;
      assert a == (a / b) * b + a % b;
      if n % b == 0 { UniqueQuotient(a, b, -(n / b), 0); }
      if a % b == 0 { UniqueQuotient(n, b, -(a / b), 0); }
    }
  }

  predicate Leap(y: int)
  {
    y % 4 == 0 && (y % 100 != 0 || y % 400 == 0)
  }

  lemma FebruaryIsLeap(y: int)
    ensures DaysInMonth(y, 2) == if Leap(y) then 29 else 28
  {
    TruncRemZero(y, 4);
    TruncRemZero(y, 100);
    TruncRemZero(y, 400);
  }

  // ── Years of an era ────────────────────────────────────────────────────────

  /** Days before the `n`th March-based year of an era, and the era's length. */
  function YearStart(n: int): int
  {
    365 * n + n / 4 - n / 100 + n / 400
  }

  /** A year of an era by century, four-year cycle and year in it; the division formula finds it. */
  lemma YearOfParts(doe: int, c: int, q: int, r: int)
    requires 0 <= c <= 3 && 0 <= q <= 24 && 0 <= r <= 3
    requires YearStart(100 * c + 4 * q + r) <= doe < YearStart(100 * c + 4 * q + r + 1)
    ensures YearOfEra(doe) == 100 * c + 4 * q + r
  {
    var n := 100 * c + 4 * q + r;
    var f := doe - 36_524 * c - 1461 * q;
    YearStartParts(c, q, r);
    YearEndParts(c, q, r);
    assert 365 * r <= f < 365 * (r + 1) + (if r == 3 then 1 else 0);
    var late := if 24 * c + q + f >= 1460 then 1 else 0;
    assert doe == 1460 * (25 * c + q) + (24 * c + q + f);
    assert doe / 1460 == 25 * c + q + late;
    CenturyOf(doe, c, q, f);
    assert doe - doe / 1460 + doe / 36_524 - doe / 146_096 == 365 * n + (f - late - 365 * r);
    assert 0 <= f - late - 365 * r < 365;
  }

  lemma YearStartParts(c: int, q: int, r: int)
    requires 0 <= c <= 3 && 0 <= q <= 24 && 0 <= r <= 3
    ensures YearStart(100 * c + 4 * q + r) == 36_524 * c + 1461 * q + 365 * r
  {
    var n := 100 * c + 4 * q + r;
    assert n / 4 == 25 * c + q && n / 100 == c && n / 400 == 0;
  }

  lemma YearEndParts(c: int, q: int, r: int)
    requires 0 <= c <= 3 && 0 <= q <= 24 && 0 <= r <= 3
    ensures YearStart(100 * c + 4 * q + r + 1) <= 36_524 * c + 1461 * q + 365 * (r + 1) + (if r == 3 then 1 else 0)
    ensures q == 24 && r == 3 && c < 3 ==> YearStart(100 * c + 4 * q + r + 1) == 36_524 * (c + 1)
    ensures q == 24 && r == 3 && c == 3 ==> YearStart(100 * c + 4 * q + r + 1) == 146_097
  {
    var n := 100 * c + 4 * q + r + 1;
    assert n / 4 == 25 * c + q + (if r == 3 then 1 else 0);
    assert n / 100 == c + (if q == 24 && r == 3 then 1 else 0);
    assert n / 400 == if n == 400 then 1 else 0;
  }

  lemma CenturyOf(doe: int, c: int, q: int, f: int)
    requires 0 <= c <= 3 && 0 <= q <= 24 && doe == 36_524 * c + 1461 * q + f && 0 <= f <= 1460
    requires c < 3 ==> doe < 36_524 * (c + 1)
    requires doe < 146_097
    ensures doe / 36_524 - doe / 146_096 == c
  {
    if doe == 146_096 {
      assert doe / 36_524 == 4;
    } else {
      assert 36_524 * c <= doe < 36_524 * (c + 1);
    }
  }

  lemma YearFound(doe: int, n: int)
    requires 0 <= n < 400 && YearStart(n) <= doe < YearStart(n + 1)
    ensures YearOfEra(doe) == n
  {
    YearOfParts(doe, n / 100, (n % 100) / 4, n % 4);
  }

  lemma {:induction false} YearExists(doe: int, hi: int) returns (n: int)
    requires 0 < hi <= 400 && 0 <= doe < YearStart(hi)
    ensures 0 <= n < hi && YearStart(n) <= doe < YearStart(n + 1)
    decreases hi
  {
    if YearStart(hi - 1) <= doe {
      n := hi - 1;
    } else {
      assert hi != 1;
      n := YearExists(doe, hi - 1);
    }
  }

  // ── Months of a year ───────────────────────────────────────────────────────

  /** Days before the month `mp` counted from March. */
  function MonthStart(mp: int): int
  {
    (153 * mp + 2) / 5
  }

  lemma MonthStarts(mp: int)
    requires 0 <= mp <= 11
    ensures MonthStart(mp) == [0, 31, 61, 92, 122, 153, 184, 214, 245, 275, 306, 337][mp]
  {
  }

  /** Length of the March-based month `mp` of the March-based year `y`. */
  function MonthLength(y: int, mp: int): int
  {
    if mp < 10 then DaysInMonth(y, mp + 3) else DaysInMonth(y + 1, mp - 9)
  }

  lemma MonthFits(y: int, mp: int)
    requires 0 <= mp <= 11
    ensures mp < 11 ==> MonthStart(mp) + MonthLength(y, mp) == MonthStart(mp + 1)
    ensures mp == 11 ==> MonthStart(mp) + MonthLength(y, mp) == if Leap(y + 1) then 366 else 365
  {
    FebruaryIsLeap(y + 1);
    MonthStarts(mp);
    if mp < 11 { MonthStarts(mp + 1); }
  }

  lemma MonthFound(doy: int, y: int, mp: int, d: int)
    requires 0 <= mp <= 11 && 1 <= d <= MonthLength(y, mp) && doy == MonthStart(mp) + d - 1
    ensures (5 * doy + 2) / 153 == mp
    ensures 0 <= doy < if Leap(y + 1) then 366 else 365
  {
    MonthFits(y, mp);
    MonthStarts(mp);
    if mp < 11 { MonthStarts(mp + 1); }
    assert MonthStart(mp) <= doy < if mp == 11 then 366 else MonthStart(mp + 1);
  }

  lemma MonthExists(doy: int, y: int) returns (mp: int)
    requires 0 <= doy < if Leap(y + 1) then 366 else 365
    ensures 0 <= mp <= 11 && 1 <= doy - MonthStart(mp) + 1 <= MonthLength(y, mp)
  {
    mp := 0;
    MonthStarts(0);
    while mp < 11 && MonthStart(mp + 1) <= doy
      invariant 0 <= mp <= 11 && MonthStart(mp) <= doy
    {
      mp := mp + 1;
    }
    MonthFits(y, mp);
  }

  // ── One date, one day number ───────────────────────────────────────────────

  /** The day number of the March-based date: era, year of era, month, day. */
  function DayOf(era: int, n: int, mp: int, d: int): int
  {
    era * 146_097 + YearStart(n) + MonthStart(mp) + d - 1 - 719_468
  }

  function CivilOf(era: int, n: int, mp: int, d: int): Civil
  {
    var y := n + era * 400;
    if mp < 10 then Civil(y, mp + 3, d) else Civil(y + 1, mp - 9, d)
  }

  ghost predicate Parts(era: int, n: int, mp: int, d: int)
  {
    0 <= n < 400 && 0 <= mp <= 11 && 1 <= d <= MonthLength(n + era * 400, mp)
  }

  lemma YearLength(era: int, n: int)
    requires 0 <= n < 400
    ensures YearStart(n + 1) - YearStart(n) == if Leap(n + era * 400 + 1) then 366 else 365
  {
    LeapRepeats(n + 1, era);
    LeapAdds(n);
  }

  lemma LeapRepeats(y: int, era: int)
    ensures Leap(y + era * 400) == Leap(y)
  {
    UniqueQuotient(y + era * 400, 4, y / 4 + era * 100, y % 4);
    UniqueQuotient(y + era * 400, 100, y / 100 + era * 4, y % 100);
    UniqueQuotient(y + era * 400, 400, y / 400 + era, y % 400);
  }

  lemma LeapAdds(n: int)
    requires 0 <= n < 400
    ensures (n + 1) / 4 - n / 4 == if (n + 1) % 4 == 0 then 1 else 0
    ensures (n + 1) / 100 - n / 100 == if (n + 1) % 100 == 0 then 1 else 0
    ensures (n + 1) / 400 - n / 400 == if (n + 1) % 400 == 0 then 1 else 0
  {
  }

  lemma {:induction false} YearStartGrows(a: int, b: int)
    requires 0 <= a <= b <= 400
    ensures YearStart(a) <= YearStart(b)
    decreases b
  {
    if a < b {
      YearStartGrows(a, b - 1);
      YearLength(0, b - 1);
    }
  }

  lemma PartsToDays(era: int, n: int, mp: int, d: int)
    requires Parts(era, n, mp, d)
    ensures IsDate(CivilOf(era, n, mp, d))
    ensures DaysFromCivil(CivilOf(era, n, mp, d)) == DayOf(era, n, mp, d)
  {
    PartsAreDate(era, n, mp, d);
    MarchBased(era, n, mp, d);
    DaysByParts(era, n, mp, d);
  }

  lemma PartsAreDate(era: int, n: int, mp: int, d: int)
    requires Parts(era, n, mp, d)
    ensures IsDate(CivilOf(era, n, mp, d))
  {
  }

  lemma MarchBased(era: int, n: int, mp: int, d: int)
    requires 0 <= n < 400 && 0 <= mp <= 11
    ensures DaysFromCivil(CivilOf(era, n, mp, d)) == DaysInEra(era, n, mp, d)
  {
    var c, y := CivilOf(era, n, mp, d), n + era * 400;
    assert (if c.m <= 2 then c.y - 1 else c.y) == y && (if c.m > 2 then c.m - 3 else c.m + 9) == mp && c.d == d;
    EraFound(y, 400, era, n);
    assert y - era * 400 == n;
  }

  lemma DaysByParts(era: int, n: int, mp: int, d: int)
    requires 0 <= n < 400 && 0 <= mp <= 11
    ensures DaysInEra(era, n, mp, d) == DayOf(era, n, mp, d)
  {
    assert n / 400 == 0;
  }

  lemma PartsToCivil(era: int, n: int, mp: int, d: int)
    requires Parts(era, n, mp, d)
    ensures CivilFromDays(DayOf(era, n, mp, d)) == CivilOf(era, n, mp, d)
  {
    var z := DayOf(era, n, mp, d) + 719_468;
    var doe := YearStart(n) + MonthStart(mp) + d - 1;
    DayOfEra(era, n, mp, d);
    EraFound(z, 146_097, era, doe);
    assert CivilFromDays(DayOf(era, n, mp, d)) == CivilInEra(era, doe);
    PartsInEra(era, n, mp, d);
  }

  lemma PartsInEra(era: int, n: int, mp: int, d: int)
    requires Parts(era, n, mp, d)
    ensures CivilInEra(era, YearStart(n) + MonthStart(mp) + d - 1) == CivilOf(era, n, mp, d)
  {
    var doy := MonthStart(mp) + d - 1;
    DayOfEra(era, n, mp, d);
    YearFound(YearStart(n) + doy, n);
    assert n / 400 == 0;
    assert (5 * doy + 2) / 153 == mp by { MonthFound(doy, n + era * 400, mp, d); }
    PartsInYear(era, n, mp, d, doy);
  }

  lemma PartsInYear(era: int, n: int, mp: int, d: int, doy: int)
    requires 0 <= mp <= 11 && (5 * doy + 2) / 153 == mp && doy == MonthStart(mp) + d - 1
    ensures CivilInYear(n + era * 400, doy) == CivilOf(era, n, mp, d)
  {
  }

  lemma DayOfEra(era: int, n: int, mp: int, d: int)
    requires Parts(era, n, mp, d)
    ensures YearStart(n) <= YearStart(n) + MonthStart(mp) + d - 1 < YearStart(n + 1)
    ensures 0 <= YearStart(n) + MonthStart(mp) + d - 1 < 146_097
  {
    DayOfYear(era, n, mp, d);
    YearStartGrows(0, n);
    YearStartGrows(n + 1, 400);
    assert YearStart(400) == 146_097;
  }

  lemma DayOfYear(era: int, n: int, mp: int, d: int)
    requires Parts(era, n, mp, d)
    ensures 0 <= MonthStart(mp) + d - 1 < YearStart(n + 1) - YearStart(n)
  {
    MonthFound(MonthStart(mp) + d - 1, n + era * 400, mp, d);
    YearLength(era, n);
  }

  lemma DatesHaveParts(c: Civil) returns (era: int, n: int, mp: int)
    requires IsDate(c)
    ensures Parts(era, n, mp, c.d) && CivilOf(era, n, mp, c.d) == c
  {
    var y := if c.m <= 2 then c.y - 1 else c.y;
    era, n, mp := y / 400, y % 400, if c.m > 2 then c.m - 3 else c.m + 9;
    assert y == n + era * 400;
  }

  lemma DaysHaveParts(days: int) returns (era: int, n: int, mp: int, d: int)
    ensures Parts(era, n, mp, d) && DayOf(era, n, mp, d) == days
  {
    var z := days + 719_468;
    era := z / 146_097;
    var doe := z % 146_097;
    n := YearExists(doe, 400);
    YearLength(era, n);
    var doy := doe - YearStart(n);
    mp := MonthExists(doy, n + era * 400);
    d := doy - MonthStart(mp) + 1;
  }

  // ── The theorems ───────────────────────────────────────────────────────────

  /** Every date has a day number, and the number gives the date back. */
  lemma CivilRoundTrip(c: Civil)
    requires IsDate(c)
    ensures CivilFromDays(DaysFromCivil(c)) == c
  {
    var era, n, mp := DatesHaveParts(c);
    PartsToDays(era, n, mp, c.d);
    PartsToCivil(era, n, mp, c.d);
  }

  /** Every day number names a calendar date, and the date gives the number back. */
  lemma DaysRoundTrip(days: int)
    ensures IsDate(CivilFromDays(days)) && DaysFromCivil(CivilFromDays(days)) == days
  {
    var era, n, mp, d := DaysHaveParts(days);
    PartsToDays(era, n, mp, d);
    PartsToCivil(era, n, mp, d);
  }

  lemma NextByMonth(era: int, n: int, mp: int, d: int)
    requires Parts(era, n, mp, d) && mp < 11
    ensures DaysFromCivil(NextDay(CivilOf(era, n, mp, d))) == DayOf(era, n, mp, d) + 1
  {
    NextParts(era, n, mp, d);
    if d < MonthLength(n + era * 400, mp) {
      PartsToDays(era, n, mp, d + 1);
    } else {
      MonthFits(n + era * 400, mp);
      PartsToDays(era, n, mp + 1, 1);
    }
  }

  lemma NextParts(era: int, n: int, mp: int, d: int)
    requires Parts(era, n, mp, d) && mp < 11
    ensures NextDay(CivilOf(era, n, mp, d)) ==
            if d < MonthLength(n + era * 400, mp) then CivilOf(era, n, mp, d + 1) else CivilOf(era, n, mp + 1, 1)
  {
  }

  lemma NextByYear(era: int, n: int, d: int)
    requires Parts(era, n, 11, d)
    ensures DaysFromCivil(NextDay(CivilOf(era, n, 11, d))) == DayOf(era, n, 11, d) + 1
  {
    if d < MonthLength(n + era * 400, 11) {
      PartsToDays(era, n, 11, d + 1);
    } else {
      MonthFits(n + era * 400, 11);
      YearLength(era, n);
      NewYear(era, n, d);
    }
  }

  lemma NewYear(era: int, n: int, d: int)
    requires Parts(era, n, 11, d) && d == MonthLength(n + era * 400, 11)
    requires YearStart(n) + MonthStart(11) + d == YearStart(n + 1)
    ensures DaysFromCivil(NextDay(CivilOf(era, n, 11, d))) == DayOf(era, n, 11, d) + 1
  {
    assert MonthStart(0) == 0;
    if n < 399 {
      assert NextDay(CivilOf(era, n, 11, d)) == CivilOf(era, n + 1, 0, 1);
      PartsToDays(era, n + 1, 0, 1);
    } else {
      NewEra(era, d);
    }
  }

  lemma NewEra(era: int, d: int)
    requires Parts(era, 399, 11, d) && d == MonthLength(399 + era * 400, 11)
    requires YearStart(399) + MonthStart(11) + d == YearStart(400)
    ensures DaysFromCivil(NextDay(CivilOf(era, 399, 11, d))) == DayOf(era, 399, 11, d) + 1
  {
    assert YearStart(400) == 146_097;
    EraStarts(era + 1, 0, 0, 1);
    var feb, march := CivilOf(era, 399, 11, d), CivilOf(era + 1, 0, 0, 1);
    assert NextDay(feb) == march by { assert feb.m == 2 && feb.d == DaysInMonth(feb.y, 2); }
  }

  lemma EraStarts(era: int, n: int, mp: int, d: int)
    requires n == mp == 0 && d == 1
    ensures DaysFromCivil(CivilOf(era, n, mp, d)) == era * 146_097 - 719_468
  {
    PartsToDays(era, n, mp, d);
  }

  /** Day numbers count days: the next number is the next date of the calendar, and 0 is
      1970-01-01. Together with the round trips this fixes both conversions everywhere. */
  lemma DaysCountDays(days: int)
    ensures CivilFromDays(days + 1) == NextDay(CivilFromDays(days))
    ensures CivilFromDays(0) == Civil(1970, 1, 1)
  {
    EpochIsDayZero();
    NextNumber(days);
    DaysRoundTrip(days);
    NextIsDate(CivilFromDays(days));
    CivilRoundTrip(NextDay(CivilFromDays(days)));
  }

  lemma EpochIsDayZero()
    ensures CivilFromDays(0) == Civil(1970, 1, 1)
  {
    assert DaysFromCivil(Civil(1970, 1, 1)) == 0;
    CivilRoundTrip(Civil(1970, 1, 1));
  }

  lemma NextNumber(days: int)
    ensures DaysFromCivil(NextDay(CivilFromDays(days))) == days + 1
  {
    var era, n, mp, d := DaysHaveParts(days);
    PartsToCivil(era, n, mp, d);
    if mp < 11 { NextByMonth(era, n, mp, d); } else { NextByYear(era, n, d); }
  }

  lemma NextIsDate(c: Civil)
    requires IsDate(c)
    ensures IsDate(NextDay(c))
  {
  }

  // ── In 64 bits ─────────────────────────────────────────────────────────────

  const Two64 := 0x1_0000_0000_0000_0000
  const Min64 := -0x8000_0000_0000_0000
  const Max64 := 0x7FFF_FFFF_FFFF_FFFF

  predicate In64(x: int)
  {
    Min64 <= x <= Max64
  }

  /** i64 arithmetic without overflow checks, as the release profile builds it. */
  function Wrap64(x: int): (r: int)
    ensures In64(r) && (In64(x) ==> r == x)
  {
    (x - Min64) % Two64 + Min64
  }

  /** `days_from_civil` as it runs, every operation on i64. */
  function DaysFromCivil64(c: Civil): int
  {
    var y := if c.m <= 2 then Wrap64(c.y - 1) else c.y;
    var era := TruncDiv(if y >= 0 then y else Wrap64(y - 399), 400);
    DaysInEra64(era, Wrap64(y - Wrap64(era * 400)), if c.m > 2 then c.m - 3 else c.m + 9, c.d)
  }

  function DaysInEra64(era: int, yoe: int, mp: int, d: int): int
  {
    var doy := TruncDiv(153 * mp + 2, 5) + d - 1;
    var doe := Wrap64(Wrap64(Wrap64(Wrap64(yoe * 365) + TruncDiv(yoe, 4)) - TruncDiv(yoe, 100)) + doy);
    Wrap64(Wrap64(Wrap64(era * 146_097) + doe) - 719_468)
  }

  /** The year the era is computed from: it begins in March. */
  function MarchYear(c: Civil): int
  {
    if c.m <= 2 then c.y - 1 else c.y
  }

  function MarchMonth(c: Civil): int
  {
    if c.m > 2 then c.m - 3 else c.m + 9
  }

  /** Every operation on the way stays within i64: the two shifts of the year, the era's days,
      and the sum before and after the epoch is taken off. */
  predicate Stays64(c: Civil)
  {
    var y := MarchYear(c);
    && In64(y) && In64(if y >= 0 then y else y - 399) && In64(EraOf(y, 400) * 146_097)
    && In64(DaysFromCivil(c) + 719_468) && In64(DaysFromCivil(c))
  }

  lemma EraRest(y: int)
    ensures EraOf(y, 400) == y / 400 && y - EraOf(y, 400) * 400 == y % 400
  {
    EraFound(y, 400, y / 400, y % 400);
  }

  lemma MarchDay(c: Civil)
    requires IsDate(c)
    ensures var doy := TruncDiv(153 * MarchMonth(c) + 2, 5) + c.d - 1;
            0 <= doy <= 365 && (c.m <= 2 ==> doy >= 306)
  {
  }

  lemma InEraExact(era: int, yoe: int, mp: int, d: int)
    requires 0 <= yoe < 400 && 0 <= TruncDiv(153 * mp + 2, 5) + d - 1 <= 365
    requires In64(era * 146_097) && In64(DaysInEra(era, yoe, mp, d) + 719_468) && In64(DaysInEra(era, yoe, mp, d))
    ensures DaysInEra64(era, yoe, mp, d) == DaysInEra(era, yoe, mp, d)
  {
  }

  lemma EraExact(y: int)
    requires In64(y) && In64(if y >= 0 then y else y - 399)
    ensures var era := TruncDiv(if y >= 0 then y else Wrap64(y - 399), 400);
            era == EraOf(y, 400) == y / 400 && Wrap64(y - Wrap64(era * 400)) == y - era * 400 == y % 400
  {
    EraRest(y);
    var era := y / 400;
    assert In64(era * 400) && In64(y - era * 400);
  }

  lemma FrontExact(c: Civil)
    requires In64(MarchYear(c)) && In64(if MarchYear(c) >= 0 then MarchYear(c) else MarchYear(c) - 399)
    ensures var y := MarchYear(c);
            && DaysFromCivil64(c) == DaysInEra64(y / 400, y % 400, MarchMonth(c), c.d)
            && DaysFromCivil(c) == DaysInEra(y / 400, y % 400, MarchMonth(c), c.d)
  {
    FrontWrapped(c);
    EraRest(MarchYear(c));
  }

  lemma FrontWrapped(c: Civil)
    requires In64(MarchYear(c)) && In64(if MarchYear(c) >= 0 then MarchYear(c) else MarchYear(c) - 399)
    ensures var y := MarchYear(c); DaysFromCivil64(c) == DaysInEra64(y / 400, y % 400, MarchMonth(c), c.d)
  {
    var y := MarchYear(c);
    EraExact(y);
    assert y == if c.m <= 2 then Wrap64(c.y - 1) else c.y;
  }

  /** Where nothing overflows, the machine computes the day number. */
  lemma ExactIn64(c: Civil)
    requires IsDate(c) && Stays64(c)
    ensures DaysFromCivil64(c) == DaysFromCivil(c)
  {
    var y := MarchYear(c);
    FrontExact(c);
    MarchDay(c);
    EraRest(y);
    InEraExact(y / 400, y % 400, MarchMonth(c), c.d);
  }

  const FirstYear64 := -25_252_734_927_764_584
  const LastYear64 := 25_252_734_927_766_553

  lemma DaysOfMarchYear(c: Civil)
    requires IsDate(c)
    ensures var y := MarchYear(c);
            var days := (y / 400) * 146_097 + (y % 400) * 365 + (y % 400) / 4 - (y % 400) / 100;
            && EraOf(y, 400) == y / 400 && days <= DaysFromCivil(c) + 719_468 <= days + 365
            && (c.m <= 2 ==> days + 306 <= DaysFromCivil(c) + 719_468)
  {
    EraRest(MarchYear(c));
    MarchDay(c);
  }

  /** In calendar years: every date of these years is computed without overflow, and none outside
      them and one more year on either side. */
  lemma YearsThatStay(c: Civil)
    requires IsDate(c)
    ensures FirstYear64 <= c.y <= LastYear64 ==> Stays64(c)
    ensures c.y < FirstYear64 - 1 || c.y > LastYear64 + 1 ==> !Stays64(c)
  {
    DaysOfMarchYear(c);
  }

  const First64 := Civil(FirstYear64 - 1, 6, 7)
  const Last64 := Civil(LastYear64 + 1, 9, 25)

  /** Calendar order. */
  predicate OnOrAfter(c: Civil, b: Civil)
  {
    c.y > b.y || (c.y == b.y && (c.m > b.m || (c.m == b.m && c.d >= b.d)))
  }

  /** The first and the last year with both kinds of dates, decided day by day. */
  lemma FirstYearDays(c: Civil)
    requires IsDate(c) && c.y == First64.y
    ensures DaysFromCivil(c) >= Min64 <==> OnOrAfter(c, First64)
  {
    MonthStarts(MarchMonth(c));
    EraRest(MarchYear(c));
  }

  lemma LastYearDays(c: Civil)
    requires IsDate(c) && c.y == Last64.y
    ensures DaysFromCivil(c) + 719_468 <= Max64 <==> OnOrAfter(Last64, c)
  {
    MonthStarts(MarchMonth(c));
    EraRest(MarchYear(c));
  }

  /** Exactly the dates computed without overflow: from the seventh of June of the first year to the
      twenty-fifth of September of the last. */
  lemma DatesThatStay(c: Civil)
    requires IsDate(c)
    ensures Stays64(c) <==> OnOrAfter(c, First64) && OnOrAfter(Last64, c)
  {
    DaysOfMarchYear(c);
    YearsThatStay(c);
    if c.y == First64.y { FirstYearDays(c); }
    if c.y == Last64.y { LastYearDays(c); }
  }

  lemma WrapOnce(x: int)
    requires Max64 < x <= Max64 + Two64
    ensures Wrap64(x) == x - Two64
  {
    UniqueQuotient(x - Min64, Two64, 1, x - Min64 - Two64);
  }

  lemma WrappedEra()
    ensures DaysInEra64(126_263_674_638_833, 0, 0, 1) == -686_283
  {
    var days := 126_263_674_638_833 * 146_097;
    assert days == 18_446_744_073_709_584_801;
    WrapOnce(days);
  }

  /** Past the range the day number comes round: this date's is 2^64 too small. */
  lemma WrappedDay()
    ensures DaysFromCivil64(Civil(50_505_469_855_533_200, 3, 1)) == -686_283
  {
    var y := 50_505_469_855_533_200;
    FrontExact(Civil(y, 3, 1));
    UniqueQuotient(y, 400, 126_263_674_638_833, 0);
    WrappedEra();
  }

  lemma DayReached()
    ensures CivilFromDays(-686_283) == Civil(91, 1, 8)
  {
  }
}
