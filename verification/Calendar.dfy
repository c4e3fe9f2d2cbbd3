/**
 Seconds since 1970 to a proleptic Gregorian date and back, and the ISO 8601 text of
 PostgreSQL timestamps and dates (internal/types/binary.go).
*/
module Calendar {
  import opened Bytes

  datatype Civil = Civil(year: int, month: int, day: int, hour: int, min: int, second: int)

  // ---- The calendar itself, defined by counting days ---------------------

  predicate IsLeap(y: int) { y % 4 == 0 && (y % 100 != 0 || y % 400 == 0) }

  function MonthLength(y: int, m: int): int
  {
    if m == 2 then (if IsLeap(y) then 29 else 28)
    else if m == 4 || m == 6 || m == 9 || m == 11 then 30
    else 31
  }

  function YearLength(y: int): int { if IsLeap(y) then 366 else 365 }

  /** Days from 0000-01-01 to January 1st of year `y` (negative before year 0). */
  function DaysBeforeYear(y: int): int
  {
    365 * y + (y + 3) / 4 - (y + 99) / 100 + (y + 399) / 400
  }

  lemma DivStep(y: int, n: int)
    requires n > 1
    ensures (y + n) / n == (y + n - 1) / n + (if y % n == 0 then 1 else 0)
  {
    var q, r := y / n, y % n;
    assert n * (q + 1) == n * q + n;
    DivIs(y + n, n, q + 1, r);
    if r == 0 {
      DivIs(y + n - 1, n, q, n - 1);
    } else {
      DivIs(y + n - 1, n, q + 1, r - 1);
    }
  }

  lemma DaysBeforeYearCounts(y: int)
    ensures DaysBeforeYear(0) == 0
    ensures DaysBeforeYear(y + 1) == DaysBeforeYear(y) + YearLength(y)
  {
    DivStep(y, 4);
    DivStep(y, 100);
    DivStep(y, 400);
    assert (y + 1 + 3) / 4 == (y + 4) / 4 && (y + 1 + 99) / 100 == (y + 100) / 100 && (y + 1 + 399) / 400 == (y + 400) / 400;
    var r := y % 400;
    assert y == 400 * (y / 400) + r;
    DivIs(y, 4, 100 * (y / 400) + r / 4, r % 4);
    DivIs(y, 100, 4 * (y / 400) + r / 100, r % 100);
  }

  function DaysBeforeMonth(y: int, m: int): int
    requires 1 <= m <= 12
  {
    if m == 1 then 0 else DaysBeforeMonth(y, m - 1) + MonthLength(y, m - 1)
  }

  predicate ValidDate(y: int, m: int, d: int)
  {
    1 <= m <= 12 && 1 <= d <= MonthLength(y, m)
  }

  /** Days since 1970-01-01. */
  function UnixDay(y: int, m: int, d: int): int
    requires 1 <= m <= 12
  {
    DaysBeforeYear(y) - DaysBeforeYear(1970) + DaysBeforeMonth(y, m) + d - 1
  }

  predicate Valid(c: Civil)
  {
    && ValidDate(c.year, c.month, c.day)
    && 0 <= c.hour < 24 && 0 <= c.min < 60 && 0 <= c.second < 60
  }

  function UnixSeconds(c: Civil): int
    requires 1 <= c.month <= 12
  {
    UnixDay(c.year, c.month, c.day) * 86400 + c.hour * 3600 + c.min * 60 + c.second
  }

  // ---- splitTime -----------------------------------------------------------

  /** Year of the 400-year era (starting on March 1st) that holds day `doe` of the era. */
  function YearOfEra(doe: int): int
  {
    (doe - doe / 1460 + doe / 36524 - doe / 146096) / 365
  }

  /** Days of the era before its (March-based) year `y`. */
  function EraDays(y: int): int { 365 * y + y / 4 - y / 100 }

  /** Day `doy` of the year that starts on March 1st of `y`. */
  function MarchDate(y: int, doy: int): (int, int, int)
  {
    var mp := (5 * doy + 2) / 153;
    var d := doy - (153 * mp + 2) / 5 + 1;
    var m := if mp < 10 then mp + 3 else mp - 9;
    (if m <= 2 then y + 1 else y, m, d)
  }

  function SplitDate(days: int): (int, int, int)
  {
    var z := days + 719468;
    var era := TruncDiv(if z < 0 then z - 146096 else z, 146097);
    var doe := z - era * 146097;
    var yoe := YearOfEra(doe);
    MarchDate(yoe + era * 400, doe - EraDays(yoe))
  }

  function SplitTime(sec: int): Civil
  {
    hide SplitDate, UnixDay, ValidDate, DaysBeforeYear;
    var q := TruncDiv(sec, 86400);
    var r := sec - q * 86400;
    DayRemainder(sec);
    var days := if r < 0 then q - 1 else q;
    var rem := if r < 0 then r + 86400 else r;
    var hour := TruncDiv(rem, 3600);
    var rem' := rem - hour * 3600;
    var min := TruncDiv(rem', 60);
    var (y, m, d) := SplitDate(days);
    Civil(y, m, d, hour, min, rem' - min * 60)
  }

  /** The year holding day u of year i of four-year cycle j of century c of the era. */
  lemma YearOfEraAt(doe: int, c: int, j: int, i: int, u: int)
    requires 0 <= c <= 3 && 0 <= j <= 24 && 0 <= i <= 3 && 0 <= u < 365 + (if i == 3 then 1 else 0)
    requires doe == 36524 * c + 1461 * j + 365 * i + u
    requires j == 24 && i == 3 && c < 3 ==> u < 365
    ensures YearOfEra(doe) == 100 * c + 4 * j + i
  {
    var y := 100 * c + 4 * j + i;
    var e := if 24 * c + j + 365 * i + u >= 1460 then 1 else 0;
    var n := 365 * y + (u - e);
    DivIs(doe, 1460, 25 * c + j + e, 24 * c + j + 365 * i + u - 1460 * e);
    if doe < 146096 {
      DivIs(doe, 36524, c, 1461 * j + 365 * i + u);
      DivIs(doe, 146096, 0, doe);
    }
    assert doe - doe / 1460 + doe / 36524 - doe / 146096 == n;
    DivIs(n, 365, y, u - e);
  }

  lemma MarchYearLength(c: int, j: int, i: int)
    requires 0 <= c <= 3 && 0 <= j <= 24 && 0 <= i <= 3
    ensures var y := 100 * c + 4 * j + i;
      && EraDays(y) == 36524 * c + 1461 * j + 365 * i
      && YearLength(y + 1) == (if i == 3 && (j < 24 || c == 3) then 366 else 365)
  {
    var y := 100 * c + 4 * j + i;
    DivIs(y, 4, 25 * c + j, i);
    DivIs(y, 100, c, 4 * j + i);
    if i < 3 {
      DivIs(y + 1, 4, 25 * c + j, i + 1);
    } else if j < 24 {
      DivIs(y + 1, 4, 25 * c + j + 1, 0);
      DivIs(y + 1, 100, c, 4 * j + 4);
    } else {
      DivIs(y + 1, 100, c + 1, 0);
    }
  }

  lemma YearOfEraCorrect(doe: int)
    requires 0 <= doe <= 146096
    ensures 0 <= YearOfEra(doe) <= 399
    ensures 0 <= doe - EraDays(YearOfEra(doe)) < YearLength(YearOfEra(doe) + 1)
  {
    var c := if doe == 146096 then 3 else doe / 36524;
    var k := doe - 36524 * c;
    var j, t := k / 1461, k % 1461;
    var i := if t == 1460 then 3 else t / 365;
    YearOfEraAt(doe, c, j, i, t - 365 * i);
    MarchYearLength(c, j, i);
  }

  predicate MarchDateOk(y: int, doy: int)
  {
    var (y', m, d) := MarchDate(y, doy);
    ValidDate(y', m, d) && UnixDay(y', m, d) == DaysBeforeYear(y + 1) - 306 - 719528 + doy
  }

  lemma MarchToJuly(y: int, doy: int)
    requires 0 <= doy < YearLength(y + 1) && (5 * doy + 2) / 153 < 5
    ensures MarchDateOk(y, doy)
  {
    assert DaysBeforeYear(1970) == 719528;
    DaysBeforeYearCounts(y);
    MonthTable(y);
    var mp := (5 * doy + 2) / 153;
    assert mp == 0 || mp == 1 || mp == 2 || mp == 3 || mp == 4;
  }

  lemma AugustToDecember(y: int, doy: int)
    requires 0 <= doy < YearLength(y + 1) && 5 <= (5 * doy + 2) / 153 < 10
    ensures MarchDateOk(y, doy)
  {
    assert DaysBeforeYear(1970) == 719528;
    DaysBeforeYearCounts(y);
    MonthTable(y);
    var mp := (5 * doy + 2) / 153;
    assert mp == 5 || mp == 6 || mp == 7 || mp == 8 || mp == 9;
  }

  lemma JanuaryAndFebruary(y: int, doy: int)
    requires 0 <= doy < YearLength(y + 1) && 10 <= (5 * doy + 2) / 153
    ensures MarchDateOk(y, doy)
  {
    assert DaysBeforeYear(1970) == 719528;
    MonthTable(y + 1);
    var mp := (5 * doy + 2) / 153;
    assert mp == 10 || mp == 11;
  }

  /** Month `mp` counted from March and its day, against the month-length table. */
  lemma MarchDateCorrect(y: int, doy: int)
    requires 0 <= doy < YearLength(y + 1)
    ensures var (y', m, d) := MarchDate(y, doy);
            ValidDate(y', m, d) && UnixDay(y', m, d) == DaysBeforeYear(y + 1) - 306 - 719528 + doy
  {
    hide DaysBeforeYear, DaysBeforeMonth, YearLength;
    if (5 * doy + 2) / 153 < 5 {
      MarchToJuly(y, doy);
    } else if (5 * doy + 2) / 153 < 10 {
      AugustToDecember(y, doy);
    } else {
      JanuaryAndFebruary(y, doy);
    }
  }

  lemma MonthTable(y: int)
    ensures DaysBeforeMonth(y, 2) == 31
    ensures var f := DaysBeforeMonth(y, 3);
      && f == YearLength(y) - 306
      && DaysBeforeMonth(y, 4) == f + 31 && DaysBeforeMonth(y, 5) == f + 61
      && DaysBeforeMonth(y, 6) == f + 92 && DaysBeforeMonth(y, 7) == f + 122
      && DaysBeforeMonth(y, 8) == f + 153 && DaysBeforeMonth(y, 9) == f + 184
      && DaysBeforeMonth(y, 10) == f + 214 && DaysBeforeMonth(y, 11) == f + 245
      && DaysBeforeMonth(y, 12) == f + 275
  {
    assert DaysBeforeMonth(y, 2) == 31;
    assert DaysBeforeMonth(y, 3) == DaysBeforeMonth(y, 2) + MonthLength(y, 2);
    assert DaysBeforeMonth(y, 4) == DaysBeforeMonth(y, 3) + 31;
    assert DaysBeforeMonth(y, 5) == DaysBeforeMonth(y, 4) + 30;
    assert DaysBeforeMonth(y, 6) == DaysBeforeMonth(y, 5) + 31;
    assert DaysBeforeMonth(y, 7) == DaysBeforeMonth(y, 6) + 30;
    assert DaysBeforeMonth(y, 8) == DaysBeforeMonth(y, 7) + 31;
    assert DaysBeforeMonth(y, 9) == DaysBeforeMonth(y, 8) + 31;
    assert DaysBeforeMonth(y, 10) == DaysBeforeMonth(y, 9) + 30;
    assert DaysBeforeMonth(y, 11) == DaysBeforeMonth(y, 10) + 31;
    assert DaysBeforeMonth(y, 12) == DaysBeforeMonth(y, 11) + 30;
  }

  /** Counting from March 1st, 400-year eras are all alike. */
  lemma MarchFirst(era: int, yoe: int)
    requires 0 <= yoe <= 399
    ensures var y := yoe + era * 400;
      && DaysBeforeYear(y + 1) - 306 == 60 + 146097 * era + EraDays(yoe)
      && YearLength(y + 1) == YearLength(yoe + 1)
  {
    var y := yoe + era * 400;
    DivIs(y + 4, 4, yoe / 4 + 100 * era + 1, yoe % 4);
    DivIs(y + 100, 100, yoe / 100 + 4 * era + 1, yoe % 100);
    DivIs(y + 400, 400, era + 1, yoe);
    var n := yoe + 1;
    DivIs(y + 1, 4, n / 4 + 100 * era, n % 4);
    DivIs(y + 1, 100, n / 100 + 4 * era, n % 100);
    DivIs(y + 1, 400, n / 400 + era, n % 400);
  }

  lemma SplitDateCorrect(days: int)
    ensures var (y, m, d) := SplitDate(days);
            ValidDate(y, m, d) && UnixDay(y, m, d) == days
  {
    hide DaysBeforeYear, EraDays, YearOfEra, MarchDate, UnixDay, ValidDate, YearLength;
    var z := days + 719468;
    var era := TruncDiv(if z < 0 then z - 146096 else z, 146097);
    EraOf(z);
    var doe := z - era * 146097;
    var yoe := YearOfEra(doe);
    YearOfEraCorrect(doe);
    MarchFirst(era, yoe);
    MarchDateCorrect(yoe + era * 400, doe - EraDays(yoe));
  }

  lemma EraOf(z: int)
    ensures var era := TruncDiv(if z < 0 then z - 146096 else z, 146097);
            0 <= z - era * 146097 <= 146096
  {
  }

  /**
   The law of splitTime: for every number of seconds, the result is a valid date and time
   of the proleptic Gregorian calendar and counting days leads back to the same second.
  */
  lemma SplitTimeCorrect(sec: int)
    ensures Valid(SplitTime(sec)) && UnixSeconds(SplitTime(sec)) == sec
  {
    hide SplitDate, ValidDate, UnixDay, MonthLength, DaysBeforeYear, DaysBeforeMonth;
    var q := TruncDiv(sec, 86400);
    var r := sec - q * 86400;
    ClockCorrect(if r < 0 then r + 86400 else r);
    SplitDateCorrect(if r < 0 then q - 1 else q);
    assert 1 <= SplitTime(sec).month <= 12 by { MonthInYear(SplitTime(sec)); }
  }

  lemma MonthInYear(c: Civil)
    requires ValidDate(c.year, c.month, c.day)
    ensures 1 <= c.month <= 12
  {
  }

  lemma DayRemainder(sec: int)
    ensures -86400 < sec - TruncDiv(sec, 86400) * 86400 < 86400
  {
  }

  lemma ClockCorrect(rem: int)
    requires 0 <= rem < 86400
    ensures var hour := TruncDiv(rem, 3600);
            var min := TruncDiv(rem - hour * 3600, 60);
            var second := rem - hour * 3600 - min * 60;
      && 0 <= hour < 24 && 0 <= min < 60 && 0 <= second < 60
  {
  }

  // ---- A date is determined by its day number ------------------------------

  lemma {:induction false} YearsAscend(y1: int, y2: int)
    requires y1 <= y2
    ensures DaysBeforeYear(y1) + (if y1 < y2 then YearLength(y1) else 0) <= DaysBeforeYear(y2)
    decreases y2 - y1
  {
    if y1 < y2 {
      DaysBeforeYearCounts(y1);
      YearsAscend(y1 + 1, y2);
    }
  }

  lemma {:induction false} MonthsAscend(y: int, m1: int, m2: int)
    requires 1 <= m1 < m2 <= 12
    ensures DaysBeforeMonth(y, m1) + MonthLength(y, m1) <= DaysBeforeMonth(y, m2)
    decreases m2
  {
    if m1 < m2 - 1 {
      MonthsAscend(y, m1, m2 - 1);
    }
  }

  lemma WithinYear(y: int, m: int, d: int)
    requires ValidDate(y, m, d)
    ensures 0 <= DaysBeforeMonth(y, m) + d - 1 < YearLength(y)
  {
    MonthTable(y);
    if m > 1 {
      MonthsAscend(y, 1, m);
    }
    if m < 12 {
      MonthsAscend(y, m, 12);
    }
  }

  lemma DateUnique(y1: int, m1: int, d1: int, y2: int, m2: int, d2: int)
    requires ValidDate(y1, m1, d1) && ValidDate(y2, m2, d2)
    requires UnixDay(y1, m1, d1) == UnixDay(y2, m2, d2)
    ensures y1 == y2 && m1 == m2 && d1 == d2
  {
    hide DaysBeforeYear, DaysBeforeMonth, YearLength, MonthLength;
    WithinYear(y1, m1, d1);
    WithinYear(y2, m2, d2);
    YearsAscend(if y1 < y2 then y1 else y2, if y1 < y2 then y2 else y1);
    assert y1 == y2;
    if m1 != m2 {
      MonthsAscend(y1, if m1 < m2 then m1 else m2, if m1 < m2 then m2 else m1);
    }
  }

  lemma CivilUnique(a: Civil, b: Civil)
    requires Valid(a) && Valid(b) && UnixSeconds(a) == UnixSeconds(b)
    ensures a == b
  {
    hide UnixDay;
    assert UnixDay(a.year, a.month, a.day) == UnixDay(b.year, b.month, b.day);
    DateUnique(a.year, a.month, a.day, b.year, b.month, b.day);
  }

  /** splitTime inverts the day count: it finds every valid date and time. */
  lemma SplitTimeInverts(c: Civil)
    requires Valid(c)
    ensures SplitTime(UnixSeconds(c)) == c
  {
    hide SplitTime, UnixSeconds;
    SplitTimeCorrect(UnixSeconds(c));
    CivilUnique(SplitTime(UnixSeconds(c)), c);
  }

  // ---- Text -----------------------------------------------------------------

  const EPOCH: int := 946684800 // 2000-01-01 in seconds since 1970
  const USEC: int := 1_000_000
  const USEC_PER_DAY: int := 86400 * 1_000_000

  const COLON: byte := 0x3A
  const DOT: byte := 0x2E
  const LETTER_T: byte := 0x54

  /** At least four digits, after a '-' when negative. */
  function YearText(v: int): bytes
  {
    var a := if v < 0 then -v else v;
    (if v < 0 then [MINUS] else []) + (if a >= 10000 then NatText(a) else Pad(a, 4))
  }

  function DateText(c: Civil): bytes
    requires Valid(c)
  {
    YearText(c.year) + ([MINUS] + (Pad(c.month, 2) + ([MINUS] + Pad(c.day, 2))))
  }

  function ClockText(c: Civil): bytes
    requires Valid(c)
  {
    Pad(c.hour, 2) + ([COLON] + (Pad(c.min, 2) + ([COLON] + Pad(c.second, 2))))
  }

  /** Microseconds since 2000 split into whole seconds since 1970 and a fraction, rounding down. */
  function SplitUsec(usec: int): (int, int)
  {
    var sec := EPOCH + TruncDiv(usec, USEC);
    var frac := TruncMod(usec, USEC);
    if frac < 0 then (sec - 1, frac + USEC) else (sec, frac)
  }

  lemma SplitUsecCorrect(usec: int)
    ensures var (sec, frac) := SplitUsec(usec);
            0 <= frac < USEC && (sec - EPOCH) * USEC + frac == usec
  {
  }

  function TimestampText(usec: int, tz: bytes): bytes
  {
    var (sec, frac) := SplitUsec(usec);
    SplitUsecCorrect(usec);
    SplitTimeCorrect(sec);
    var c := SplitTime(sec);
    DateText(c) + ([LETTER_T] + (ClockText(c) + ((if frac != 0 then [DOT] + Pad(frac, 6) else []) + tz)))
  }

  // ---- Reading the text back ---------------------------------------------------

  function ReadDate(s: bytes): (r: Option<((int, int, int), bytes)>)
    ensures r.Some? ==> ValidDate(r.value.0.0, r.value.0.1, r.value.0.2)
  {
    var (y, neg, s1) :- ReadInt(s);
    var s2 :- Expect(s1, MINUS);
    var (m, s3) :- ReadFixed(s2, 2);
    var s4 :- Expect(s3, MINUS);
    var (d, s5) :- ReadFixed(s4, 2);
    if ValidDate(y, m, d) then Some(((y, m, d), s5)) else None
  }

  function ReadClock(s: bytes): Option<(int, bytes)>
  {
    var (h, s1) :- ReadFixed(s, 2);
    var s2 :- Expect(s1, COLON);
    var (m, s3) :- ReadFixed(s2, 2);
    var s4 :- Expect(s3, COLON);
    var (sec, s5) :- ReadFixed(s4, 2);
    Some((h * 3600 + m * 60 + sec, s5))
  }

  /** An ISO 8601 timestamp as microseconds since 2000, and what follows it. */
  function ReadTimestamp(s: bytes): Option<(int, bytes)>
  {
    var ((y, m, d), s1) :- ReadDate(s);
    var s2 :- Expect(s1, LETTER_T);
    var (clock, s3) :- ReadClock(s2);
    var whole := (UnixDay(y, m, d) * 86400 + clock - EPOCH) * USEC;
    if s3 != [] && s3[0] == DOT then
      var (frac, s4) :- ReadFixed(s3[1..], 6);
      Some((whole + frac, s4))
    else
      Some((whole, s3))
  }

  lemma Pow10Values()
    ensures Pow10(2) == 100 && Pow10(4) == 10000 && Pow10(6) == USEC
  {
    assert Pow10(1) == 10;
    assert Pow10(2) == 100;
    assert Pow10(3) == 1000;
    assert Pow10(4) == 10000;
    assert Pow10(5) == 100000;
  }

  lemma YearDigits(a: nat)
    ensures var d := if a >= 10000 then NatText(a) else Pad(a, 4);
            |d| > 0 && AllDigits(d) && DecValue(d) == a
  {
    Pow10Values();
    NatTextValue(a);
    if a < 10000 {
      PadValue(a, 4);
    }
  }

  lemma ReadYearText(v: int, rest: bytes)
    requires rest == [] || !IsDigit(rest[0])
    ensures ReadInt(YearText(v) + rest) == Some((v, v < 0, rest))
  {
    hide NatText, Pad, DecValue, ReadNat, ReadInt;
    var a := if v < 0 then -v else v;
    var d := if a >= 10000 then NatText(a) else Pad(a, 4);
    YearDigits(a);
    ReadNatOf(d, rest);
    if v < 0 {
      ReadIntMinus(d + rest);
      assert YearText(v) + rest == [MINUS] + (d + rest);
    } else {
      assert (d + rest)[0] == d[0];
      ReadIntPlain(d + rest);
      assert YearText(v) + rest == d + rest;
    }
  }

  lemma TwoDigits(a: nat, b: byte, t: bytes, rest: bytes)
    requires a < 100
    ensures ReadFixed((Pad(a, 2) + ([b] + t)) + rest, 2) == Some((a, [b] + (t + rest)))
    ensures Expect([b] + (t + rest), b) == Some(t + rest)
  {
    hide Pad, ReadFixed, Pow10;
    Pow10Values();
    ReadFixedOf(a, 2, [b] + (t + rest));
    assert (Pad(a, 2) + ([b] + t)) + rest == Pad(a, 2) + ([b] + (t + rest));
    ExpectOf(b, t + rest);
  }

  lemma ReadDateText(c: Civil, rest: bytes)
    requires Valid(c)
    ensures ReadDate(DateText(c) + rest) == Some(((c.year, c.month, c.day), rest))
  {
    hide Pad, ReadFixed, Pow10, ReadInt, Expect, YearText;
    var t := Pad(c.month, 2) + ([MINUS] + Pad(c.day, 2));
    assert DateText(c) + rest == YearText(c.year) + ([MINUS] + (t + rest));
    ReadYearText(c.year, [MINUS] + (t + rest));
    ExpectOf(MINUS, t + rest);
    TwoDigits(c.month, MINUS, Pad(c.day, 2), rest);
    Pow10Values();
    ReadFixedOf(c.day, 2, rest);
  }

  lemma ReadClockText(c: Civil, rest: bytes)
    requires Valid(c)
    ensures ReadClock(ClockText(c) + rest) == Some((c.hour * 3600 + c.min * 60 + c.second, rest))
  {
    hide Pad, ReadFixed, Pow10, Expect;
    var t := Pad(c.min, 2) + ([COLON] + Pad(c.second, 2));
    TwoDigits(c.hour, COLON, t, rest);
    TwoDigits(c.min, COLON, Pad(c.second, 2), rest);
    Pow10Values();
    ReadFixedOf(c.second, 2, rest);
  }

  /**
   The text of a timestamp reads back to the same count of microseconds, for every count
   and every zone suffix that is not itself a digit or a fraction.
  */
  lemma TimestampRoundTrip(usec: int, tz: bytes)
    requires tz == [] || (!IsDigit(tz[0]) && tz[0] != DOT)
    ensures ReadTimestamp(TimestampText(usec, tz)) == Some((usec, tz))
  {
    hide DateText, ClockText, ReadDate, ReadClock, Pad, ReadFixed, Pow10, Expect, SplitTime, UnixDay, SplitUsec;
    var (sec, frac) := SplitUsec(usec);
    SplitUsecCorrect(usec);
    SplitTimeCorrect(sec);
    var c := SplitTime(sec);
    var f := if frac != 0 then [DOT] + Pad(frac, 6) else [];
    ReadDateText(c, [LETTER_T] + (ClockText(c) + (f + tz)));
    ExpectOf(LETTER_T, ClockText(c) + (f + tz));
    ReadClockText(c, f + tz);
    if frac != 0 {
      Pow10Values();
      ReadFixedOf(frac, 6, tz);
      assert (f + tz)[1..] == Pad(frac, 6) + tz;
    } else {
      assert f + tz == tz;
    }
  }
}
