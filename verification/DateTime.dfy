/**
 The JSON cells of PostgreSQL timestamps and dates in binary format
 (internal/types/binary.go): sentinels, malformed lengths and the finite values.
*/
module DateTime {
  import opened Bytes
  import opened Calendar
  import opened JsonWriter

  const NULL_TEXT: bytes := [0x6E, 0x75, 0x6C, 0x6C]
  const INFINITY: bytes := [0x69, 0x6E, 0x66, 0x69, 0x6E, 0x69, 0x74, 0x79]
  const MINUS_INFINITY: bytes := [MINUS] + INFINITY

  /** encodeTimestampBinary (zone suffix "") and encodeTimestampTZBinary (suffix "Z"). */
  function TimestampCell(raw: Option<bytes>, tz: bytes): bytes
  {
    match raw
    case None => NULL_TEXT
    case Some(b) =>
      if |b| != 8 then Quoted(b)
      else
        var usec := ReadI64(b);
        if usec == TWO_63 - 1 then [QUOTE] + (INFINITY + [QUOTE])
        else if usec == -TWO_63 then [QUOTE] + (MINUS_INFINITY + [QUOTE])
        else [QUOTE] + (TimestampText(usec, tz) + [QUOTE])
  }

  datatype Moment = Finite(usec: int) | PlusInfinity | MinusInfinity

  /** The instant an eight-byte wire value stands for. */
  function MomentOf(usec: int): Moment
  {
    if usec == TWO_63 - 1 then PlusInfinity
    else if usec == -TWO_63 then MinusInfinity
    else Finite(usec)
  }

  function ReadTimestampCell(s: bytes, tz: bytes): Option<Moment>
  {
    var t :- Expect(s, QUOTE);
    if t == INFINITY + [QUOTE] then Some(PlusInfinity)
    else if t == MINUS_INFINITY + [QUOTE] then Some(MinusInfinity)
    else
      var (usec, rest) :- ReadTimestamp(t);
      if rest == tz + [QUOTE] then Some(Finite(usec)) else None
  }

  lemma TimestampTextSuffix(usec: int, tz: bytes, more: bytes)
    ensures TimestampText(usec, tz) + more == TimestampText(usec, tz + more)
  {
    hide DateText, ClockText, SplitTime, SplitUsec, Pad;
    var (sec, frac) := SplitUsec(usec);
    SplitUsecCorrect(usec);
    SplitTimeCorrect(sec);
    var c := SplitTime(sec);
    var d := DateText(c);
    var t := ClockText(c);
    var f := if frac != 0 then [DOT] + Pad(frac, 6) else [];
    assert (d + ([LETTER_T] + (t + (f + tz)))) + more == d + ([LETTER_T] + (t + (f + (tz + more))));
  }

  lemma InfinityIsNoTimestamp()
    ensures ReadTimestamp(INFINITY + [QUOTE]).None?
    ensures ReadTimestamp(MINUS_INFINITY + [QUOTE]).None?
  {
    var s := INFINITY + [QUOTE];
    assert s[0] == 0x69;
    assert DigitRun(s) == 0;
    var t := MINUS_INFINITY + [QUOTE];
    assert t[1..] == s && t[0] == MINUS;
    assert ReadInt(t).None?;
  }

  /** Every timestamp cell reads back to its instant, the two infinities included. */
  lemma TimestampCellRoundTrip(b: bytes, tz: bytes)
    requires |b| == 8
    requires tz == [] || (!IsDigit(tz[0]) && tz[0] != DOT)
    ensures ReadTimestampCell(TimestampCell(Some(b), tz), tz) == Some(MomentOf(ReadI64(b)))
  {
    hide ReadTimestamp, TimestampText;
    var usec := ReadI64(b);
    if MomentOf(usec).Finite? {
      TimestampTextSuffix(usec, tz, [QUOTE]);
      TimestampRoundTrip(usec, tz + [QUOTE]);
      InfinityIsNoTimestamp();
      ExpectOf(QUOTE, TimestampText(usec, tz) + [QUOTE]);
    } else if MomentOf(usec).PlusInfinity? {
      ExpectOf(QUOTE, INFINITY + [QUOTE]);
    } else {
      ExpectOf(QUOTE, MINUS_INFINITY + [QUOTE]);
      assert (MINUS_INFINITY + [QUOTE])[0] != (INFINITY + [QUOTE])[0];
    }
  }

  /** So no two different wire values share a text. */
  lemma TimestampCellInjective(a: bytes, b: bytes, tz: bytes)
    requires |a| == 8 && |b| == 8
    requires tz == [] || (!IsDigit(tz[0]) && tz[0] != DOT)
    requires TimestampCell(Some(a), tz) == TimestampCell(Some(b), tz)
    ensures a == b
  {
    hide TimestampCell, ReadTimestampCell;
    TimestampCellRoundTrip(a, tz);
    TimestampCellRoundTrip(b, tz);
    assert ReadU64(a) == ReadU64(b);
    ToFromBE(a);
    ToFromBE(b);
  }

  // ---- Dates ------------------------------------------------------------------

  /** int64 multiplication: the product modulo 2^64, read as a signed number. */
  function WrapInt64(v: int): (w: int)
    ensures IsInt64(w)
  {
    Signed(v % TWO_64, TWO_64)
  }

  function DateOnly(usec: int): Civil { SplitTime(EPOCH + TruncDiv(usec, USEC)) }

  function DateOnlyText(usec: int): bytes
  {
    SplitTimeCorrect(EPOCH + TruncDiv(usec, USEC));
    DateText(DateOnly(usec))
  }

  function DateCell(raw: Option<bytes>): bytes
  {
    match raw
    case None => NULL_TEXT
    case Some(b) =>
      if |b| != 4 then Quoted(b)
      else
        var days := ReadI32(b);
        if days == TWO_31 - 1 then [QUOTE] + (INFINITY + [QUOTE])
        else if days == -TWO_31 then [QUOTE] + (MINUS_INFINITY + [QUOTE])
        else [QUOTE] + (DateOnlyText(WrapInt64(days * USEC_PER_DAY)) + [QUOTE])
  }

  /** Days since 1970 of the date that stands at the start of a text. */
  function ReadDay(s: bytes): Option<int>
  {
    var ((y, m, d), rest) :- ReadDate(s);
    Some(UnixDay(y, m, d))
  }

  const EPOCH_DAY: int := 10957
  const LAST_EXACT_DAY: int := 106751991

  lemma DayOf(c: Civil)
    requires Valid(c)
    ensures UnixDay(c.year, c.month, c.day) == UnixSeconds(c) / 86400
  {
    hide UnixDay;
    DivIs(UnixSeconds(c), 86400, UnixDay(c.year, c.month, c.day), c.hour * 3600 + c.min * 60 + c.second);
  }

  lemma DateOnlyDay(usec: int)
    ensures ReadDay(DateOnlyText(usec)) == Some((EPOCH + TruncDiv(usec, USEC)) / 86400)
  {
    hide SplitTime, UnixDay, UnixSeconds, ReadDate, DateText;
    var sec := EPOCH + TruncDiv(usec, USEC);
    SplitTimeCorrect(sec);
    var c := SplitTime(sec);
    ReadDateText(c, []);
    assert DateText(c) + [] == DateText(c);
    DayOf(c);
  }

  /** Overflow of the day-to-microsecond product moves the result far away from the day. */
  lemma WrappedDay(days: int)
    requires IsInt32(days)
    ensures (EPOCH + TruncDiv(WrapInt64(days * USEC_PER_DAY), USEC)) / 86400 == EPOCH_DAY + days
       <==> -LAST_EXACT_DAY <= days <= LAST_EXACT_DAY
  {
    var p := days * USEC_PER_DAY;
    var w := WrapInt64(p);
    if -LAST_EXACT_DAY <= days <= LAST_EXACT_DAY {
      assert w == p;
      assert TruncDiv(w, USEC) == days * 86400;
    } else {
      var t := TruncDiv(w, USEC);
      assert p - w >= TWO_63 || w - p >= TWO_63;
      assert t * USEC - USEC < w < t * USEC + USEC;
    }
  }

  /**
   The text of a date names the right day exactly for |days| <= 106751991, the days whose
   microseconds fit in 64 bits; every other date the wire can carry is rendered wrong.
  */
  lemma DateExactIff(days: int)
    requires IsInt32(days)
    ensures ReadDay(DateOnlyText(WrapInt64(days * USEC_PER_DAY))) == Some(EPOCH_DAY + days)
       <==> -LAST_EXACT_DAY <= days <= LAST_EXACT_DAY
  {
    hide DateOnlyText, ReadDay, WrapInt64;
    DateOnlyDay(WrapInt64(days * USEC_PER_DAY));
    WrappedDay(days);
  }

  const MIDNIGHT: bytes := [ZERO, ZERO, COLON, ZERO, ZERO, COLON, ZERO, ZERO]

  lemma MidnightClock(c: Civil)
    requires Valid(c) && c.hour == 0 && c.min == 0 && c.second == 0
    ensures ClockText(c) == MIDNIGHT
  {
    assert Pad(0, 0) == [];
    assert Pad(0, 1) == [ZERO];
    assert Pad(0, 2) == [ZERO, ZERO];
  }

  lemma MidnightSplit(days: int)
    ensures TruncDiv(days * USEC_PER_DAY, USEC) == days * 86400
    ensures SplitUsec(days * USEC_PER_DAY) == (EPOCH + days * 86400, 0)
  {
  }

  lemma MidnightTime(c: Civil, days: int)
    requires Valid(c) && UnixSeconds(c) == EPOCH + days * 86400
    ensures c.hour == 0 && c.min == 0 && c.second == 0
  {
    hide UnixDay;
    assert (c.hour * 3600 + c.min * 60 + c.second)
        == (EPOCH_DAY + days - UnixDay(c.year, c.month, c.day)) * 86400;
  }

  /** Where dates are exact, a date and the timestamp at its midnight show the same date. */
  lemma DateAgreesWithMidnight(days: int, tz: bytes)
    requires -LAST_EXACT_DAY <= days <= LAST_EXACT_DAY
    ensures TimestampText(days * USEC_PER_DAY, tz)
         == DateOnlyText(WrapInt64(days * USEC_PER_DAY)) + ([LETTER_T] + (MIDNIGHT + tz))
  {
    hide SplitTime, DateText, UnixDay, ClockText, SplitUsec, TruncDiv, Valid, UnixSeconds;
    var usec := days * USEC_PER_DAY;
    assert WrapInt64(usec) == usec;
    MidnightSplit(days);
    var c := SplitTime(EPOCH + days * 86400);
    SplitTimeCorrect(EPOCH + days * 86400);
    MidnightTime(c, days);
    MidnightClock(c);
    assert [] + tz == tz;
  }
}
