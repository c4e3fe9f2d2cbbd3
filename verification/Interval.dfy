/**
 PostgreSQL intervals as ISO 8601 durations (internal/types/interval.go), and a reader of
 such durations.
*/
module Interval {
  import opened Bytes
  import opened JsonWriter
  import DateTime

  const USEC: int := 1_000_000
  const USEC_PER_MIN: int := 60_000_000
  const USEC_PER_HOUR: int := 3_600_000_000

  const LETTER_P: byte := 0x50
  const LETTER_T: byte := 0x54
  const YEARS: byte := 0x59
  const MONTHS: byte := 0x4D
  const DAYS: byte := 0x44
  const HOURS: byte := 0x48
  const MINUTES: byte := 0x4D
  const SECONDS: byte := 0x53
  const DOT: byte := 0x2E

  // ---- What the encoder writes -------------------------------------------------

  /** A component with its designator; zero components are left out. */
  function Part(v: int, designator: byte): bytes
  {
    if v == 0 then [] else IntText(v) + [designator]
  }

  function StripZeros(s: bytes): (t: bytes)
    ensures |t| <= |s| && t == s[..|t|]
  {
    if |s| > 1 && s[|s| - 1] == ZERO then StripZeros(s[..|s| - 1]) else s
  }

  function Abs(v: int): nat { if v < 0 then -v else v }

  function FracText(frac: int): bytes { StripZeros(Pad(Abs(frac), 6)) }

  function SecondsPart(secs: int, frac: int): bytes
  {
    if secs == 0 && frac == 0 then []
    else IntText(secs) + ((if frac != 0 then [DOT] + FracText(frac) else []) + [SECONDS])
  }

  function TimePart(micros: int): bytes
  {
    if micros == 0 then []
    else
      var m := TruncMod(micros, USEC_PER_HOUR);
      var s := TruncMod(m, USEC_PER_MIN);
      [LETTER_T] + (Part(TruncDiv(micros, USEC_PER_HOUR), HOURS)
      + (Part(TruncDiv(m, USEC_PER_MIN), MINUTES)
      + SecondsPart(TruncDiv(s, USEC), TruncMod(s, USEC))))
  }

  function DurationText(months: int, days: int, micros: int): bytes
  {
    if months == 0 && days == 0 && micros == 0 then [LETTER_P, LETTER_T, ZERO, SECONDS]
    else
      [LETTER_P] + (Part(TruncDiv(months, 12), YEARS)
      + (Part(TruncMod(months, 12), MONTHS) + (Part(days, DAYS) + TimePart(micros))))
  }

  function IntervalCell(raw: Option<bytes>): bytes
  {
    match raw
    case None => DateTime.NULL_TEXT
    case Some(b) =>
      if |b| != 16 then Quoted(b)
      else [QUOTE] + (DurationText(ReadI32(b[12..16]), ReadI32(b[8..12]), ReadI64(b[0..8])) + [QUOTE])
  }

  method AppendFrac6(dst: bytes, frac: int) returns (out: bytes)
    ensures out == dst + FracText(frac)
  {
    var f := if frac < 0 then -frac else frac;
    var buf := Pad(f, 6);
    var end := 6;
    assert buf[..6] == buf;
    while end > 1 && buf[end - 1] == ZERO
      invariant 1 <= end <= 6
      invariant StripZeros(buf[..end]) == StripZeros(buf)
    {
      assert buf[..end][..end - 1] == buf[..end - 1];
      end := end - 1;
    }
    out := dst + buf[..end];
  }

  method AppendPart(dst: bytes, v: int, designator: byte) returns (out: bytes)
    ensures out == dst + Part(v, designator)
  {
    out := dst;
    if v != 0 {
      out := out + IntText(v);
      out := out + [designator];
    }
  }

  method AppendSeconds(dst: bytes, secs: int, frac: int) returns (out: bytes)
    ensures out == dst + SecondsPart(secs, frac)
  {
    hide IntText, FracText;
    out := dst;
    if secs != 0 || frac != 0 {
      out := out + IntText(secs);
      if frac != 0 {
        out := out + [DOT];
        out := AppendFrac6(out, frac);
      }
      out := out + [SECONDS];
    }
  }

  lemma TimeIs(dst: bytes, micros: int, m: int, s: int)
    requires micros != 0
    requires m == micros - TruncDiv(micros, USEC_PER_HOUR) * USEC_PER_HOUR
    requires s == m - TruncDiv(m, USEC_PER_MIN) * USEC_PER_MIN
    ensures ((dst + [LETTER_T] + Part(TruncDiv(micros, USEC_PER_HOUR), HOURS)) + Part(TruncDiv(m, USEC_PER_MIN), MINUTES))
            + SecondsPart(TruncDiv(s, USEC), s - TruncDiv(s, USEC) * USEC)
         == dst + TimePart(micros)
  {
    hide TruncDiv, Part, SecondsPart;
  }

  method AppendTime(dst: bytes, micros0: int) returns (out: bytes)
    ensures out == dst + TimePart(micros0)
  {
    hide TruncDiv, Part, SecondsPart;
    out := dst;
    var micros := micros0;
    if micros != 0 {
      hide TimePart;
      out := out + [LETTER_T];
      var hours := TruncDiv(micros, USEC_PER_HOUR);
      micros := micros - hours * USEC_PER_HOUR;
      var mins := TruncDiv(micros, USEC_PER_MIN);
      TimeIs(dst, micros0, micros, micros - mins * USEC_PER_MIN);
      micros := micros - mins * USEC_PER_MIN;
      var secs := TruncDiv(micros, USEC);
      var frac := micros - secs * USEC;
      out := AppendPart(out, hours, HOURS);
      out := AppendPart(out, mins, MINUTES);
      out := AppendSeconds(out, secs, frac);
    }
  }

  /** Components are peeled off `months` and `micros` one unit at a time. */
  method EncodeIntervalBinary(dst: bytes, raw: Option<bytes>) returns (out: bytes)
    ensures out == dst + IntervalCell(raw)
  {
    hide Part, IntText, TimePart, TruncDiv, Quoted, ReadI32, ReadI64;
    if raw.None? {
      return dst + DateTime.NULL_TEXT;
    }
    var b := raw.value;
    if |b| != 16 {
      out := AppendStringBytes(dst, b);
      return;
    }
    var micros, days, months := ReadI64(b[0..8]), ReadI32(b[8..12]), ReadI32(b[12..16]);
    ghost var months0 := months;
    var years := TruncDiv(months, 12);
    months := months - years * 12;
    ZeroMonths(months0);
    if years == 0 && months == 0 && days == 0 && micros == 0 {
      return dst + [QUOTE, LETTER_P, LETTER_T, ZERO, SECONDS, QUOTE];
    }
    out := dst + [QUOTE, LETTER_P];
    out := AppendPart(out, years, YEARS);
    out := AppendPart(out, months, MONTHS);
    out := AppendPart(out, days, DAYS);
    out := AppendTime(out, micros);
    out := out + [QUOTE];
    assert out == dst + ([QUOTE] + (DurationText(months0, days, micros) + [QUOTE]));
  }

  lemma ZeroMonths(months: int)
    ensures months == 0 <==> TruncDiv(months, 12) == 0 && TruncMod(months, 12) == 0
  {
  }

  // ---- A reader of durations -----------------------------------------------------

  /** An optional component: its value, or 0 when the next number carries another designator. */
  function OptPart(s: bytes, designator: byte): (int, bytes)
  {
    match ReadInt(s)
    case None => (0, s)
    case Some((v, neg, rest)) =>
      if rest != [] && rest[0] == designator then (v, rest[1..]) else (0, s)
  }

  /** Digits after a decimal point, in millionths. */
  function ReadFrac(s: bytes): Option<(int, bytes)>
  {
    var k := DigitRun(s);
    if 1 <= k <= 6 then Some((DecValue(s[..k]) * Pow10(6 - k), s[k..])) else None
  }

  /** An optional decimal number of seconds, in microseconds; the sign covers the fraction. */
  function OptSeconds(s: bytes): (int, bytes)
  {
    match ReadInt(s)
    case None => (0, s)
    case Some((v, neg, rest)) =>
      if rest != [] && rest[0] == SECONDS then (v * USEC, rest[1..])
      else if rest != [] && rest[0] == DOT then
        match ReadFrac(rest[1..])
        case None => (0, s)
        case Some((f, t)) =>
          if t != [] && t[0] == SECONDS then (v * USEC + (if neg then 0 - f else f), t[1..]) else (0, s)
      else (0, s)
  }

  function ReadTime(s: bytes): (int, bytes)
  {
    var (h, s1) := OptPart(s, HOURS);
    var (m, s2) := OptPart(s1, MINUTES);
    var (us, s3) := OptSeconds(s2);
    (h * USEC_PER_HOUR + m * USEC_PER_MIN + us, s3)
  }

  /** (months, days, microseconds) of an ISO 8601 duration that fills the whole text. */
  function ReadDuration(s: bytes): Option<(int, int, int)>
  {
    var s0 :- Expect(s, LETTER_P);
    var (y, s1) := OptPart(s0, YEARS);
    var (m, s2) := OptPart(s1, MONTHS);
    var (d, s3) := OptPart(s2, DAYS);
    if s3 == [] then Some((y * 12 + m, d, 0))
    else
      var s4 :- Expect(s3, LETTER_T);
      var (us, s5) := ReadTime(s4);
      if s5 == [] then Some((y * 12 + m, d, us)) else None
  }

  // ---- Reading back ---------------------------------------------------------------

  predicate Skips(s: bytes, designator: byte) { OptPart(s, designator) == (0, s) }

  lemma OptPartOf(v: int, designator: byte, rest: bytes)
    requires !IsDigit(designator) && Skips(rest, designator)
    ensures OptPart(Part(v, designator) + rest, designator) == (v, rest)
  {
    hide ReadInt, IntText;
    if v == 0 {
      assert Part(v, designator) + rest == rest;
    } else {
      var t := [designator] + rest;
      ReadIntText(v, t);
      assert Part(v, designator) + rest == IntText(v) + t;
      assert t[1..] == rest;
    }
  }

  lemma SkipsPart(v: int, other: byte, rest: bytes, designator: byte)
    requires !IsDigit(other) && other != designator && Skips(rest, designator)
    ensures Skips(Part(v, other) + rest, designator)
  {
    hide ReadInt, IntText;
    if v == 0 {
      assert Part(v, other) + rest == rest;
    } else {
      var t := [other] + rest;
      ReadIntText(v, t);
      assert Part(v, other) + rest == IntText(v) + t;
    }
  }

  lemma SkipsLetter(s: bytes, designator: byte)
    requires s == [] || (s[0] != MINUS && !IsDigit(s[0]))
    ensures Skips(s, designator)
  {
    assert DigitRun(s) == 0;
  }

  /** Trailing zeros of a fraction can go: the remaining digits denote the same millionths. */
  lemma {:induction false} StripZerosValue(s: bytes)
    requires |s| > 0 && AllDigits(s)
    ensures var t := StripZeros(s); |t| > 0 && AllDigits(t) && DecValue(t) * Pow10(|s| - |t|) == DecValue(s)
  {
    if |s| > 1 && s[|s| - 1] == ZERO {
      var s' := s[..|s| - 1];
      var t := StripZeros(s');
      StripZerosValue(s');
      TimesTen(DecValue(t), |s'| - |t|);
      assert DecValue(s) == 10 * DecValue(s');
      hide Pow10, StripZeros;
    }
  }

  lemma ReadFracText(frac: int, rest: bytes)
    requires -USEC < frac < USEC
    requires rest == [] || !IsDigit(rest[0])
    ensures ReadFrac(FracText(frac) + rest) == Some((Abs(frac), rest))
  {
    assert Pow10(6) == USEC by {
      assert Pow10(2) == 100;
      assert Pow10(4) == 10000;
    }
    PadValue(Abs(frac), 6);
    StripZerosValue(Pad(Abs(frac), 6));
    DigitRunOf(FracText(frac), rest);
  }

  /** The seconds component loses the sign of its fraction when there are no whole seconds. */
  function SecondsRead(secs: int, frac: int): int
  {
    secs * USEC + (if secs == 0 then Abs(frac) else frac)
  }

  lemma OptSecondsOf(secs: int, frac: int)
    requires -USEC < frac < USEC
    requires (secs > 0 ==> frac >= 0) && (secs < 0 ==> frac <= 0)
    ensures OptSeconds(SecondsPart(secs, frac)) == (SecondsRead(secs, frac), [])
    ensures forall designator :: designator == HOURS || designator == MINUTES
                             ==> Skips(SecondsPart(secs, frac), designator)
  {
    hide ReadInt, IntText, FracText, ReadFrac, StripZeros;
    var s := SecondsPart(secs, frac);
    if secs == 0 && frac == 0 {
      SkipsLetter([], HOURS);
      assert ReadInt([]).None?;
    } else if frac == 0 {
      assert s == IntText(secs) + [SECONDS];
      ReadIntText(secs, [SECONDS]);
    } else {
      var t := [DOT] + FracText(frac) + [SECONDS];
      assert s == IntText(secs) + t;
      ReadIntText(secs, t);
      assert t[1..] == FracText(frac) + [SECONDS];
      assert [SECONDS][1..] == [];
      ReadFracText(frac, [SECONDS]);
    }
  }

  /** A fraction of a second below zero with no whole seconds left to carry the sign. */
  predicate LosesSign(micros: int)
  {
    -USEC < TruncMod(micros, USEC_PER_MIN) < 0
  }

  lemma Peel(micros: int)
    ensures var m := TruncMod(micros, USEC_PER_HOUR);
            var s := TruncMod(m, USEC_PER_MIN);
            var secs, frac := TruncDiv(s, USEC), TruncMod(s, USEC);
      && -USEC < frac < USEC && (secs > 0 ==> frac >= 0) && (secs < 0 ==> frac <= 0)
      && TruncDiv(micros, USEC_PER_HOUR) * USEC_PER_HOUR + TruncDiv(m, USEC_PER_MIN) * USEC_PER_MIN
         + secs * USEC + frac == micros
      && (LosesSign(micros) <==> secs == 0 && frac < 0)
  {
    var m := TruncMod(micros, USEC_PER_HOUR);
    assert TruncMod(m, USEC_PER_MIN) == TruncMod(micros, USEC_PER_MIN) by { TruncModTwice(micros); }
  }

  lemma TruncModTwice(micros: int)
    ensures TruncMod(TruncMod(micros, USEC_PER_HOUR), USEC_PER_MIN) == TruncMod(micros, USEC_PER_MIN)
  {
    var a := if micros < 0 then -micros else micros;
    assert a % USEC_PER_HOUR % USEC_PER_MIN == a % USEC_PER_MIN;
  }

  lemma ReadTimePart(micros: int)
    requires micros != 0
    ensures TimePart(micros) != [] && TimePart(micros)[0] == LETTER_T
    ensures var (us, rest) := ReadTime(TimePart(micros)[1..]);
            rest == [] && (us == micros <==> !LosesSign(micros))
  {
    hide TruncDiv, TruncMod, Part, SecondsPart, OptPart, OptSeconds, LosesSign;
    Peel(micros);
    var m := TruncMod(micros, USEC_PER_HOUR);
    var s := TruncMod(m, USEC_PER_MIN);
    var h, mi, secs, frac := TruncDiv(micros, USEC_PER_HOUR), TruncDiv(m, USEC_PER_MIN), TruncDiv(s, USEC), TruncMod(s, USEC);
    var t := SecondsPart(secs, frac);
    OptSecondsOf(secs, frac);
    OptPartOf(mi, MINUTES, t);
    SkipsPart(mi, MINUTES, t, HOURS);
    OptPartOf(h, HOURS, Part(mi, MINUTES) + t);
    assert TimePart(micros)[1..] == Part(h, HOURS) + (Part(mi, MINUTES) + t);
  }

  /**
   A duration always reads back to the same months and days, and to the same microseconds
   exactly unless a negative fraction stands behind zero whole seconds.
  */
  lemma DurationRoundTrip(months: int, days: int, micros: int)
    ensures var r := ReadDuration(DurationText(months, days, micros));
            r.Some? && r.value.0 == months && r.value.1 == days
            && (r.value.2 == micros <==> !LosesSign(micros))
  {
    hide TruncDiv, Part, OptPart, OptSeconds, TimePart, ReadTime, LosesSign;
    ZeroMonths(months);
    if months == 0 && days == 0 && micros == 0 {
      ZeroDuration();
    } else {
      var t := TimePart(micros);
      if micros == 0 {
        NoTimePart();
      } else {
        ReadTimePart(micros);
      }
      SkipsLetter(t, DAYS);
      SkipsLetter(t, MONTHS);
      SkipsLetter(t, YEARS);
      var y, m := TruncDiv(months, 12), TruncMod(months, 12);
      var t1 := Part(days, DAYS) + t;
      var t2 := Part(m, MONTHS) + t1;
      OptPartOf(days, DAYS, t);
      SkipsPart(days, DAYS, t, MONTHS);
      SkipsPart(days, DAYS, t, YEARS);
      OptPartOf(m, MONTHS, t1);
      SkipsPart(m, MONTHS, t1, YEARS);
      OptPartOf(y, YEARS, t2);
      ExpectOf(LETTER_P, Part(y, YEARS) + t2);
      if micros != 0 {
        assert Expect(t, LETTER_T) == Some(t[1..]);
      }
      assert Expect(DurationText(months, days, micros), LETTER_P) == Some(Part(y, YEARS) + t2);
      assert y * 12 + m == months;
    }
  }

  lemma NoTimePart()
    ensures TimePart(0) == [] && !LosesSign(0)
  {
  }

  lemma ZeroDuration()
    ensures ReadDuration(DurationText(0, 0, 0)) == Some((0, 0, 0))
    ensures !LosesSign(0)
  {
    var s0 := [LETTER_T, ZERO, SECONDS];
    var s4 := [ZERO, SECONDS];
    SkipsLetter(s0, YEARS);
    SkipsLetter(s0, MONTHS);
    SkipsLetter(s0, DAYS);
    assert IntText(0) == [ZERO];
    assert s4 == IntText(0) + [SECONDS];
    ReadIntText(0, [SECONDS]);
    assert DurationText(0, 0, 0)[1..] == s0 && s0[1..] == s4;
  }

  lemma SameFraction(frac: int)
    ensures FracText(-frac) == FracText(frac)
  {
  }

  /** A part of a second. */
  lemma SubSecond(v: int)
    requires -USEC < v < USEC && v != 0
    ensures TimePart(v) == [LETTER_T] + SecondsPart(0, v) && (LosesSign(v) <==> v < 0)
  {
    hide IntText, FracText, SecondsPart;
    assert TruncMod(v, USEC_PER_HOUR) == v && TruncMod(v, USEC_PER_MIN) == v && TruncMod(v, USEC) == v;
    assert [] + ([] + SecondsPart(0, v)) == SecondsPart(0, v);
  }

  /** Where the sign is lost two different intervals share a text, -0.5 s and 0.5 s for one. */
  lemma LostSignCollides(micros: int)
    requires 0 < micros < USEC
    ensures LosesSign(-micros) && DurationText(0, 0, -micros) == DurationText(0, 0, micros)
  {
    hide TimePart, IntText, FracText, TruncDiv, LosesSign;
    SubSecond(micros);
    SubSecond(-micros);
    SameFraction(micros);
  }

  /** Not the empty interval, and no part of it is positive. */
  predicate AllNegative(months: int, days: int, micros: int)
  {
    months <= 0 && days <= 0 && micros <= 0 && !(months == 0 && days == 0 && micros == 0)
  }

  /**
   What the comment promises: a leading sign exactly when every part is negative, and otherwise
   the sign of each part, so that the text reads back.
  */
  predicate SignsAsPromised(months: int, days: int, micros: int)
  {
    var text := DurationText(months, days, micros);
    && (text[0] == MINUS <==> AllNegative(months, days, micros))
    && (!AllNegative(months, days, micros) ==> ReadDuration(text) == Some((months, days, micros)))
  }

  /** Every text starts with P, so the promise is kept exactly for intervals that need no leading sign and lose none. */
  lemma SignsIff(months: int, days: int, micros: int)
    ensures DurationText(months, days, micros)[0] == LETTER_P
    ensures SignsAsPromised(months, days, micros) <==> !AllNegative(months, days, micros) && !LosesSign(micros)
  {
    hide LosesSign, ReadDuration, TimePart, Part, TruncDiv;
    DurationRoundTrip(months, days, micros);
  }
}
