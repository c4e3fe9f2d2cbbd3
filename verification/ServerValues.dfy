/**
 What PostgreSQL puts on the wire for a value (the binary send functions of its types), and what
 becomes of it: the JSON cell says that value, a scanned field holds it, the COPY accessors return
 it; and what goes to the server as a parameter or a COPY field means what was given.
*/
module ServerValues {
  import opened Bytes
  import opened Json
  import Args
  import Calendar
  import CopyIn
  import CopyOut
  import DateTime
  import Interval
  import JsonWriter
  import Numeric
  import Rows
  import Scan

  datatype SqlValue =
    | SBool(b: bool) | SInt2(v: int) | SInt4(v: int) | SInt8(v: int) | SText(s: bytes) | SBytea(bs: bytes) | SUuid(u: bytes)
    | STimestamp(usec: int) | STimestampTZ(usec: int) | SDate(days: int) | SInterval(months: int, days: int, usec: int)
    | SNumeric(neg: bool, ds: seq<nat>, weight: int, dscale: nat) | SNaN | SInfinity | SMinusInfinity

  /** The values PostgreSQL has. */
  predicate Sendable(v: SqlValue)
  {
    match v
    case SInt2(n) => IsInt16(n)
    case SInt4(n) => IsInt32(n)
    case SInt8(n) => IsInt64(n)
    case SUuid(u) => |u| == 16
    case STimestamp(usec) => IsInt64(usec)
    case STimestampTZ(usec) => IsInt64(usec)
    case SDate(days) => IsInt32(days)
    case SInterval(months, days, usec) => IsInt32(months) && IsInt32(days) && IsInt64(usec)
    case SNumeric(_, ds, weight, dscale) => Numeric.BaseDigits(ds) && |ds| < 0x8000 && IsInt16(weight) && dscale < 0x4000
    case _ => true
  }

  function DigitBytes(ds: seq<nat>): (s: bytes)
    ensures |s| == 2 * |ds|
  {
    if ds == [] then [] else DigitBytes(ds[..|ds| - 1]) + ToBE(ds[|ds| - 1] % 0x1_0000, 2)
  }

  /** numeric_send: digit count, weight, sign, scale, digits. */
  function NumericBytes(sign: bytes, ds: seq<nat>, weight: int, dscale: nat): bytes
    requires |sign| == 2
  {
    I16(|ds|) + (I16(weight) + (sign + (I16(dscale) + DigitBytes(ds))))
  }

  function Send(v: SqlValue): bytes
  {
    match v
    case SBool(b) => [if b then 1 else 0]
    case SInt2(n) => I16(n)
    case SInt4(n) => I32(n)
    case SInt8(n) => I64(n)
    case SText(s) => s
    case SBytea(bs) => bs
    case SUuid(u) => u
    case STimestamp(usec) => I64(usec)
    case STimestampTZ(usec) => I64(usec)
    case SDate(days) => I32(days)
    case SInterval(months, days, usec) => I64(usec) + (I32(days) + I32(months))
    case SNumeric(neg, ds, weight, dscale) => NumericBytes(if neg then [0x40, 0x00] else [0x00, 0x00], ds, weight, dscale)
    case SNaN => NumericBytes([0xC0, 0x00], [], 0, 0)
    case SInfinity => NumericBytes([0xD0, 0x00], [], 0, 0)
    case SMinusInfinity => NumericBytes([0xF0, 0x00], [], 0, 0)
  }

  function KindOf(v: SqlValue): Rows.Kind
  {
    match v
    case SBool(_) => Rows.Boolean
    case SInt2(_) => Rows.Int2
    case SInt4(_) => Rows.Int4
    case SInt8(_) => Rows.Int8
    case SText(_) => Rows.String
    case SBytea(_) => Rows.Bytea
    case SUuid(_) => Rows.Uuid
    case STimestamp(_) => Rows.Timestamp
    case STimestampTZ(_) => Rows.TimestampTZ
    case SDate(_) => Rows.Date
    case SInterval(_, _, _) => Rows.Duration
    case _ => Rows.Decimals
  }

  // ---- Readers of the texts --------------------------------------------------------------------

  function HexDigit(c: byte): Option<nat>
  {
    if 0x30 <= c <= 0x39 then Some(c - 0x30) else if 0x61 <= c <= 0x66 then Some(c - 0x61 + 10) else None
  }

  /** Two hex digits a byte, the high one first. */
  function UnHex(s: bytes): Option<bytes>
  {
    if s == [] then Some([])
    else if |s| == 1 then None
    else
      var n := |s| - 2;
      var front, hi, lo := UnHex(s[..n]), HexDigit(s[n]), HexDigit(s[n + 1]);
      if front.None? || hi.None? || lo.None? then None else Some(front.value + [hi.value * 16 + lo.value])
  }

  lemma UnHexMore(s: bytes, hi: byte, lo: byte, b: bytes, h: nat, l: nat)
    requires UnHex(s) == Some(b) && HexDigit(hi) == Some(h) && HexDigit(lo) == Some(l)
    ensures UnHex(s + [hi, lo]) == Some(b + [h * 16 + l])
  {
    var t := s + [hi, lo];
    assert t[..|t| - 2] == s && t[|t| - 2] == hi && t[|t| - 1] == lo;
    hide HexDigit;
  }

  lemma HexLast(b: bytes)
    requires b != []
    ensures var c := b[|b| - 1];
            Rows.HexText(b) == Rows.HexText(b[..|b| - 1]) + [JsonWriter.Hex(c / 16), JsonWriter.Hex(c % 16)]
  {
    hide JsonWriter.Hex;
  }

  lemma UnHexStep(b: bytes)
    requires b != [] && UnHex(Rows.HexText(b[..|b| - 1])) == Some(b[..|b| - 1])
    ensures UnHex(Rows.HexText(b)) == Some(b)
  {
    hide Rows.HexText, UnHex, HexDigit, JsonWriter.Hex;
    var n := |b| - 1;
    var h, l := b[n] / 16, b[n] % 16;
    HexLast(b);
    HexPair(b[n]);
    UnHexMore(Rows.HexText(b[..n]), JsonWriter.Hex(h), JsonWriter.Hex(l), b[..n], h, l);
    assert b == b[..n] + [h * 16 + l];
  }

  lemma {:induction false} UnHexOf(b: bytes)
    ensures |Rows.HexText(b)| == 2 * |b| && UnHex(Rows.HexText(b)) == Some(b)
  {
    if b == [] {
      assert Rows.HexText(b) == [];
    } else {
      hide Rows.HexText, UnHex;
      UnHexOf(b[..|b| - 1]);
      HexLast(b);
      UnHexStep(b);
    }
  }

  lemma HexPair(c: byte)
    ensures HexDigit(JsonWriter.Hex(c / 16)) == Some(c / 16) && HexDigit(JsonWriter.Hex(c % 16)) == Some(c % 16)
  {
  }

  /** Groups of 8, 4, 4, 4 and 12 hex digits with a dash between them. */
  function ReadUuid(s: bytes): Option<bytes>
  {
    if |s| == 36 && s[8] == MINUS && s[13] == MINUS && s[18] == MINUS && s[23] == MINUS
    then UnHex(s[0..8] + s[9..13] + s[14..18] + s[19..23] + s[24..36]) else None
  }

  lemma {:induction false} HexConcat(a: bytes, b: bytes)
    ensures Rows.HexText(a + b) == Rows.HexText(a) + Rows.HexText(b)
  {
    if b == [] {
      assert a + b == a && Rows.HexText(a) + [] == Rows.HexText(a);
    } else {
      var n := |b| - 1;
      HexConcat(a, b[..n]);
      assert (a + b)[..|a + b| - 1] == a + b[..n] && (a + b)[|a + b| - 1] == b[n];
      var last := [JsonWriter.Hex(b[n] / 16), JsonWriter.Hex(b[n] % 16)];
      Assoc(Rows.HexText(a), Rows.HexText(b[..n]), last);
    }
  }

  lemma UuidReads(u: bytes)
    requires |u| == 16
    ensures ReadUuid(Rows.UuidText(u)) == Some(u)
  {
    hide Rows.HexText, UnHex;
    var a, b, c, d, e := u[0..4], u[4..6], u[6..8], u[8..10], u[10..16];
    UnHexOf(a);
    UnHexOf(b);
    UnHexOf(c);
    UnHexOf(d);
    UnHexOf(e);
    UnHexOf(u);
    HexConcat(a + b + c + d, e);
    HexConcat(a + b + c, d);
    HexConcat(a + b, c);
    HexConcat(a, b);
    assert u == a + b + c + d + e;
    var t := Rows.UuidText(u);
    assert t[0..8] == Rows.HexText(a) && t[9..13] == Rows.HexText(b) && t[14..18] == Rows.HexText(c);
    assert t[19..23] == Rows.HexText(d) && t[24..36] == Rows.HexText(e);
  }

  lemma DigitsMore(s: bytes, ds: seq<nat>, d: nat)
    requires |s| >= 2 * |ds| + 2 && Numeric.WireDigits(s, |ds|) == ds && ReadU16(s[2 * |ds|..2 * |ds| + 2]) == d
    ensures Numeric.WireDigits(s, |ds| + 1) == ds + [d]
  {
    hide ReadU16;
  }

  lemma DigitsLast(ds: seq<nat>)
    requires ds != []
    ensures DigitBytes(ds) == DigitBytes(ds[..|ds| - 1]) + ToBE(ds[|ds| - 1] % 0x1_0000, 2)
  {
    hide ToBE;
  }

  lemma {:induction false} DigitsRead(ds: seq<nat>, rest: bytes)
    requires Numeric.BaseDigits(ds)
    ensures Numeric.WireDigits(DigitBytes(ds) + rest, |ds|) == ds
  {
    if ds != [] {
      hide DigitBytes, Numeric.WireDigits, ToBE, ReadU16;
      var n := |ds| - 1;
      var front, last := DigitBytes(ds[..n]), ToBE(ds[n] % 0x1_0000, 2);
      DigitsLast(ds);
      Assoc(front, last, rest);
      DigitsRead(ds[..n], last + rest);
      var s := front + (last + rest);
      assert s[2 * n..2 * n + 2] == last;
      ReadU16Of(ds[n]);
      DigitsMore(s, ds[..n], ds[n]);
      assert ds == ds[..n] + [ds[n]];
    }
  }

  lemma ReadU16Of(n: nat)
    requires n < 0x1_0000
    ensures ReadU16(ToBE(n % 0x1_0000, 2)) == n
  {
    Args.ReadU16Of(n);
  }

  /** The decoder finds the parts where numeric_send puts them. */
  lemma NumericParts(sign: bytes, ds: seq<nat>, weight: int, dscale: nat)
    requires |sign| == 2 && |ds| < 0x8000 && IsInt16(weight) && dscale < 0x8000 && Numeric.BaseDigits(ds)
    ensures var b := NumericBytes(sign, ds, weight, dscale);
      && |b| == 8 + 2 * |ds| && ReadI16(b[0..2]) == |ds| && ReadI16(b[2..4]) == weight && b[4..6] == sign
      && ReadI16(b[6..8]) == dscale && Numeric.WireDigits(b[8..], |ds|) == ds
  {
    hide I16, ReadI16, DigitBytes, Numeric.WireDigits;
    ReadI16RoundTrip(|ds|);
    ReadI16RoundTrip(weight);
    ReadI16RoundTrip(dscale);
    DigitsRead(ds, []);
    var b := NumericBytes(sign, ds, weight, dscale);
    assert b[0..2] == I16(|ds|) && b[2..4] == I16(weight) && b[6..8] == I16(dscale);
    assert b[8..] == DigitBytes(ds) + [];
  }

  lemma SignCodes()
    ensures ReadU16([0x00, 0x00]) == 0 && ReadU16([0x40, 0x00]) == 0x4000
    ensures ReadU16([0xC0, 0x00]) == 0xC000 && ReadU16([0xD0, 0x00]) == 0xD000 && ReadU16([0xF0, 0x00]) == 0xF000
  {
    TwoBytes(0, 0);
    TwoBytes(0x40, 0);
    TwoBytes(0xC0, 0);
    TwoBytes(0xD0, 0);
    TwoBytes(0xF0, 0);
  }

  lemma TwoBytes(hi: byte, lo: byte)
    ensures ReadU16([hi, lo]) == 256 * hi + lo
  {
    var s := [hi, lo];
    assert s[..1] == [hi] && [hi][..0] == [];
    assert FromBE([hi]) == hi;
  }

  lemma NumericWire(v: SqlValue)
    requires Sendable(v) && (v.SNumeric? || v.SNaN? || v.SInfinity? || v.SMinusInfinity?)
    ensures Numeric.WireOf(Send(v)) ==
      match v
      case SNumeric(neg, ds, weight, dscale) => Numeric.Finite(neg, ds, weight, dscale)
      case SNaN => Numeric.NaN
      case SInfinity => Numeric.Infinity
      case _ => Numeric.MinusInfinity
  {
    hide NumericBytes, ReadI16, ReadU16, Numeric.WireDigits;
    SignCodes();
    match v
    case SNumeric(neg, ds, weight, dscale) => NumericParts(if neg then [0x40, 0x00] else [0x00, 0x00], ds, weight, dscale);
    case SNaN => NumericParts([0xC0, 0x00], [], 0, 0);
    case SInfinity => NumericParts([0xD0, 0x00], [], 0, 0);
    case SMinusInfinity => NumericParts([0xF0, 0x00], [], 0, 0);
  }

  // ---- JSON cells ----------------------------------------------------------------------------------

  const INFINITY_WORD: bytes := [0x69, 0x6E, 0x66, 0x69, 0x6E, 0x69, 0x74, 0x79]

  /** The text of a timestamp names its instant, with Z behind it where it has a time zone. */
  predicate NamesInstant(t: bytes, usec: int, tz: bytes)
  {
    if usec == TWO_63 - 1 then t == INFINITY_WORD
    else if usec == -TWO_63 then t == [MINUS] + INFINITY_WORD
    else Calendar.ReadTimestamp(t) == Some((usec, tz))
  }

  /** The text of a date names its day, as long as the day's microseconds fit. */
  predicate NamesDay(t: bytes, days: int)
  {
    if days == TWO_31 - 1 then t == INFINITY_WORD
    else if days == -TWO_31 then t == [MINUS] + INFINITY_WORD
    else -DateTime.LAST_EXACT_DAY <= days <= DateTime.LAST_EXACT_DAY ==> DateTime.ReadDay(t) == Some(DateTime.EPOCH_DAY + days)
  }

  predicate NamesDuration(t: bytes, months: int, days: int, usec: int)
  {
    match Interval.ReadDuration(t)
    case None => false
    case Some((m, d, us)) => m == months && d == days && (us == usec || Interval.LosesSign(usec))
  }

  /** The JSON value says what the SQL value is. */
  predicate Says(val: Value, v: SqlValue)
  {
    match v
    case SBool(b) => val == Bool(b)
    case SInt2(n) => val == Number(n)
    case SInt4(n) => val == Number(n)
    case SInt8(n) => val == Number(n)
    case SText(s) => val == Text(s)
    case SBytea(bs) =>
      val.Text? && |val.s| >= 2 && val.s[..2] == [JsonWriter.SLASH, 0x78] && UnHex(val.s[2..]) == Some(bs)
    case SUuid(u) => val.Text? && ReadUuid(val.s) == Some(u)
    case STimestamp(usec) => val.Text? && NamesInstant(val.s, usec, [])
    case STimestampTZ(usec) => val.Text? && NamesInstant(val.s, usec, [0x5A])
    case SDate(days) => val.Text? && NamesDay(val.s, days)
    case SInterval(months, days, usec) => val.Text? && NamesDuration(val.s, months, days, usec)
    case SNumeric(neg, ds, weight, dscale) =>
      val == Rows.DecimalValue(neg, ds, weight, dscale)
    case SNaN => val == Text([0x4E, 0x61, 0x4E])
    case SInfinity => val == Text([0x49, 0x6E, 0x66, 0x69, 0x6E, 0x69, 0x74, 0x79])
    case SMinusInfinity => val == Text([0x2D, 0x49, 0x6E, 0x66, 0x69, 0x6E, 0x69, 0x74, 0x79])
  }

  lemma TimestampSays(usec: int, tz: bytes)
    requires IsInt64(usec) && (tz == [] || tz == [0x5A])
    ensures var val := Rows.TimestampValue(I64(usec), tz); val.Text? && NamesInstant(val.s, usec, tz)
  {
    hide Calendar.TimestampText, Calendar.ReadTimestamp, ReadI64, I64;
    ReadI64RoundTrip(usec);
    if usec != TWO_63 - 1 && usec != -TWO_63 {
      Calendar.TimestampRoundTrip(usec, tz);
    }
  }

  lemma DateSays(days: int)
    requires IsInt32(days)
    ensures var val := Rows.CellOf(Rows.Date, Some(I32(days))); val.Text? && NamesDay(val.s, days)
  {
    hide DateTime.DateOnlyText, DateTime.ReadDay, DateTime.WrapInt64, ReadI32, I32;
    ReadI32RoundTrip(days);
    DateTime.DateExactIff(days);
  }

  lemma IntervalSays(months: int, days: int, usec: int)
    requires IsInt32(months) && IsInt32(days) && IsInt64(usec)
    ensures var val := Rows.CellOf(Rows.Duration, Some(Send(SInterval(months, days, usec))));
            val.Text? && NamesDuration(val.s, months, days, usec)
  {
    hide Interval.DurationText, Interval.ReadDuration, Interval.LosesSign, ReadI32, I32, ReadI64, I64;
    ReadI64RoundTrip(usec);
    ReadI32RoundTrip(days);
    ReadI32RoundTrip(months);
    var b := Send(SInterval(months, days, usec));
    assert b[0..8] == I64(usec) && b[8..12] == I32(days) && b[12..16] == I32(months);
    Interval.DurationRoundTrip(months, days, usec);
  }

  lemma ByteaSays(bs: bytes)
    ensures Says(Rows.CellOf(Rows.Bytea, Some(bs)), SBytea(bs))
  {
    hide Rows.HexText, UnHex;
    UnHexOf(bs);
    var t := Rows.BYTEA_PREFIX + Rows.HexText(bs);
    assert t[..2] == Rows.BYTEA_PREFIX && t[2..] == Rows.HexText(bs);
  }

  lemma IntSays(v: SqlValue)
    requires Sendable(v) && (v.SInt2? || v.SInt4? || v.SInt8?)
    ensures Rows.CellOf(KindOf(v), Some(Send(v))) == Number(v.v)
  {
    hide I16, I32, I64, ReadI16, ReadI32, ReadI64;
    match v
    case SInt2(n) => ReadI16RoundTrip(n);
    case SInt4(n) => ReadI32RoundTrip(n);
    case SInt8(n) => ReadI64RoundTrip(n);
  }

  lemma NumericSays(v: SqlValue)
    requires Sendable(v) && (v.SNumeric? || v.SNaN? || v.SInfinity? || v.SMinusInfinity?)
    ensures Says(Rows.CellOf(Rows.Decimals, Some(Send(v))), v)
  {
    hide Rows.DecimalValue, Numeric.WireOf, Send;
    NumericWire(v);
    NumericCellIs(Send(v));
  }

  lemma NumericCellIs(b: bytes)
    ensures Rows.CellOf(Rows.Decimals, Some(b)) == Rows.NumericValue(b)
  {
    hide Rows.NumericValue;
  }

  lemma PlainSays(v: SqlValue)
    requires Sendable(v) && (v.SBool? || v.SText? || v.SBytea? || v.SUuid?)
    ensures Says(Rows.CellOf(KindOf(v), Some(Send(v))), v)
  {
    hide ReadUuid, UnHex, Rows.UuidText, Rows.HexText;
    match v
    case SBool(b) => BoolSays(b);
    case SText(s) =>
    case SBytea(bs) => ByteaSays(bs);
    case SUuid(u) => UuidReads(u);
  }

  lemma ClockSays(v: SqlValue)
    requires Sendable(v) && (v.STimestamp? || v.STimestampTZ? || v.SDate? || v.SInterval?)
    ensures Says(Rows.CellOf(KindOf(v), Some(Send(v))), v)
  {
    hide NamesInstant, NamesDay, NamesDuration, Rows.TimestampValue, I32, I64;
    match v
    case STimestamp(usec) => TimestampSays(usec, []);
    case STimestampTZ(usec) => TimestampSays(usec, [0x5A]);
    case SDate(days) => DateSays(days);
    case SInterval(months, days, usec) => IntervalSays(months, days, usec);
  }

  /** Every cell says the value the server sent. */
  lemma CellSays(v: SqlValue)
    requires Sendable(v)
    ensures Says(Rows.CellOf(KindOf(v), Some(Send(v))), v)
  {
    if v.SInt2? || v.SInt4? || v.SInt8? {
      IntSays(v);
      hide Rows.CellOf, Send;
    } else {
      hide Rows.CellOf, Send, Says;
      if v.SNumeric? || v.SNaN? || v.SInfinity? || v.SMinusInfinity? {
        NumericSays(v);
      } else if v.STimestamp? || v.STimestampTZ? || v.SDate? || v.SInterval? {
        ClockSays(v);
      } else {
        PlainSays(v);
      }
    }
  }

  lemma BoolSays(b: bool)
    ensures Rows.CellOf(Rows.Boolean, Some(Send(SBool(b)))) == Bool(b)
  {
  }

  lemma SentIsNormal(v: SqlValue)
    requires Sendable(v) && (v.SNumeric? ==> v.ds == [] || v.weight <= 0 || v.ds[0] != 0)
    ensures Rows.NormalCell(KindOf(v), Some(Send(v)))
  {
    hide Send, Numeric.WireOf;
    if v.SNumeric? || v.SNaN? || v.SInfinity? || v.SMinusInfinity? {
      NumericWire(v);
    }
  }

  /** NULL says so; a cell whose length is not its type's shows its bytes, and a boolean is false then. */
  lemma OtherCellsSay(kind: Rows.Kind, b: bytes)
    ensures Rows.CellOf(kind, None) == Null
    ensures kind.Boolean? && |b| != 1 ==> Rows.CellOf(kind, Some(b)) == Bool(false)
    ensures kind.Int2? && |b| != 2 ==> Rows.CellOf(kind, Some(b)) == Text(b)
    ensures kind.Int4? && |b| != 4 ==> Rows.CellOf(kind, Some(b)) == Text(b)
    ensures kind.Int8? && |b| != 8 ==> Rows.CellOf(kind, Some(b)) == Text(b)
    ensures kind.Uuid? && |b| != 16 ==> Rows.CellOf(kind, Some(b)) == Text(b)
    ensures kind.Decimals? && |b| < 8 ==> Rows.CellOf(kind, Some(b)) == Text(b)
  {
  }

  /** ... and the encoder's text for it, wherever it stands in a row, reads as that value. */
  lemma SentReads(v: SqlValue, tail: bytes)
    requires Sendable(v) && Delimits(tail)
    requires v.SNumeric? ==> v.ds == [] || v.weight <= 0 || v.ds[0] != 0
    ensures var r := ReadValue(Rows.Encode(KindOf(v), Some(Send(v))) + tail);
            r.Some? && r.value.1 == tail && Says(r.value.0, v)
  {
    hide Says, Rows.Encode, Rows.CellOf, ReadValue, Send, Rows.NormalCell;
    CellSays(v);
    SentIsNormal(v);
    Rows.CellReads(KindOf(v), Some(Send(v)), tail);
  }

  // ---- Scanned fields --------------------------------------------------------------------------

  function ScanOid(v: SqlValue): Option<Scan.Oid>
  {
    match v
    case SBool(_) => Some(Scan.OBool)
    case SInt2(_) => Some(Scan.OInt2)
    case SInt4(_) => Some(Scan.OInt4)
    case SInt8(_) => Some(Scan.OInt8)
    case SText(_) => Some(Scan.OText)
    case SBytea(_) => Some(Scan.OBytea)
    case STimestamp(_) => Some(Scan.OTimestamp)
    case _ => None
  }

  /** An integer cut to a field's width: the field holds the one value of its range congruent to it. */
  predicate Cut(kind: Scan.IntKind, n: int, v: int) { Scan.FitsKind(kind, n) && (n - v) % Scan.Bits(kind) == 0 }

  /** Seconds and nanoseconds since 1970 of an instant given in microseconds since 2000. */
  predicate IsInstant(sec: int, nsec: int, usec: int)
  {
    && 0 <= nsec < 1_000_000_000
    && sec * 1_000_000_000 + nsec == Calendar.UnixDay(2000, 1, 1) * 86400 * 1_000_000_000 + usec * 1000
  }

  /** What the field of a struct must hold once the value has been scanned into it. */
  predicate Shows(target: Scan.Target, field: Scan.Value, old': Scan.Value, v: SqlValue)
  {
    match v
    case SBool(b) => field == Scan.VBool(b)
    case SText(s) => field == if target.TString? then Scan.VString(s) else Scan.VBytes(Some(s))
    case SBytea(bs) => field == Scan.VBytes(Some(bs))
    case STimestamp(usec) =>
      if usec == TWO_63 - 1 || usec == -TWO_63 then field == old' else field.VTime? && IsInstant(field.sec, field.nsec, usec)
    case SInt2(n) => ShowsInt(target, field, n)
    case SInt4(n) => ShowsInt(target, field, n)
    case SInt8(n) => ShowsInt(target, field, n)
    case _ => false
  }

  predicate ShowsInt(target: Scan.Target, field: Scan.Value, n: int)
  {
    match target
    case TInt(kind) => field.VInt? && Cut(kind, field.v, n)
    case NullInt(kind) => field.VNull? && field.valid && Cut(kind, field.inner, n)
    case PtrInt(kind) => field.VPtr? && field.p.Some? && Cut(kind, field.p.value, n)
    case _ => false
  }

  lemma ConvertCuts(kind: Scan.IntKind, v: int)
    ensures Cut(kind, Scan.Convert(kind, v), v)
  {
    var n, u := Scan.Bits(kind), v % Scan.Bits(kind);
    var q := v / n;
    assert v == n * q + u;
    var r := Scan.Convert(kind, v);
    if r == u {
      DivIs(r - v, n, -q, 0);
    } else {
      assert r == u - n;
      DivIs(r - v, n, -q - 1, 0);
    }
  }

  lemma EpochIs()
    ensures Calendar.EPOCH == Scan.EPOCH == Calendar.UnixDay(2000, 1, 1) * 86400
    ensures DateTime.EPOCH_DAY == Calendar.UnixDay(2000, 1, 1)
  {
  }

  lemma TimeIs(usec: int)
    ensures IsInstant(Scan.TimeOf(usec).0, Scan.TimeOf(usec).1, usec)
  {
    EpochIs();
  }

  lemma IntReadIs(v: SqlValue)
    requires Sendable(v) && (v.SInt2? || v.SInt4? || v.SInt8?)
    ensures |Send(v)| == Scan.Width(ScanOid(v).value) && |Send(v)| in {2, 4, 8} && Scan.ReadInt(Send(v)) == v.v
  {
    hide ReadI16, ReadI32, ReadI64;
    match v
    case SInt2(n) => ReadI16RoundTrip(n);
    case SInt4(n) => ReadI32RoundTrip(n);
    case SInt8(n) => ReadI64RoundTrip(n);
  }

  lemma IntFieldShows(v: SqlValue, target: Scan.Target, old': Scan.Value)
    requires Sendable(v) && (v.SInt2? || v.SInt4? || v.SInt8?) && Scan.Supported(ScanOid(v).value, target)
    ensures var r := Scan.Set(ScanOid(v).value, target, old', Some(Send(v))); r.Some? && ShowsInt(target, r.value, v.v)
  {
    hide Scan.Convert, Cut, Scan.ReadInt, Send;
    IntReadIs(v);
    match target
    case TInt(kind) => ConvertCuts(kind, v.v);
    case NullInt(kind) => ConvertCuts(kind, v.v);
    case PtrInt(kind) => ConvertCuts(kind, v.v);
  }

  lemma PlainFieldShows(v: SqlValue, target: Scan.Target, old': Scan.Value)
    requires Sendable(v) && (v.SBool? || v.SText? || v.SBytea? || v.STimestamp?) && Scan.Supported(ScanOid(v).value, target)
    ensures var r := Scan.Set(ScanOid(v).value, target, old', Some(Send(v))); r.Some? && Shows(target, r.value, old', v)
  {
    hide IsInstant, Scan.TimeOf, ReadI64, I64;
    if v.STimestamp? {
      ReadI64RoundTrip(v.usec);
      TimeIs(v.usec);
    }
  }

  /** A scanned field shows the value the server sent, whatever it held before. */
  lemma FieldShows(v: SqlValue, target: Scan.Target, old': Scan.Value)
    requires Sendable(v) && ScanOid(v).Some? && Scan.Supported(ScanOid(v).value, target)
    ensures var r := Scan.Set(ScanOid(v).value, target, old', Some(Send(v))); r.Some? && Shows(target, r.value, old', v)
  {
    hide Scan.Set, Send, ShowsInt, Scan.Supported, IsInstant;
    if v.SInt2? || v.SInt4? || v.SInt8? {
      IntFieldShows(v, target, old');
    } else {
      PlainFieldShows(v, target, old');
    }
  }

  // ---- COPY ----------------------------------------------------------------------------------------

  /** The value a COPY field is. */
  function SqlOf(f: CopyIn.Field): SqlValue
    requires !f.Null?
  {
    match f
    case Int2(n) => SInt2(n)
    case Int4(n) => SInt4(n)
    case Int8(n) => SInt8(n)
    case Bool(b) => SBool(b)
    case Text(s) => SText(s)
    case Uuid(u) => SUuid(u)
  }

  function RawOf(f: CopyIn.Field): Rows.Raw { if f.Null? then None else Some(Send(SqlOf(f))) }

  predicate CopyFits(f: CopyIn.Field) { !f.Null? ==> Sendable(SqlOf(f)) && |Send(SqlOf(f))| < TWO_31 }

  function AccessKind(f: CopyIn.Field): CopyOut.Kind
    requires !f.Null?
  {
    match f
    case Int2(_) => CopyOut.KInt2
    case Int4(_) => CopyOut.KInt4
    case Int8(_) => CopyOut.KInt8
    case Bool(_) => CopyOut.KBool
    case Text(_) => CopyOut.KText
    case Uuid(_) => CopyOut.KUuid
  }

  /** The writer's fields are what the server's send functions write, ... */
  lemma CopyFieldIs(f: CopyIn.Field)
    requires CopyFits(f)
    ensures CopyIn.FieldBytes(f) == Rows.CellBytes(RawOf(f))
  {
    hide I16, I32, I64;
  }

  /** ... and the accessor of a field's type gets that field out of them. */
  lemma CopyFieldReads(f: CopyIn.Field, kind: CopyOut.Kind, rest: bytes)
    requires CopyFits(f) && (!f.Null? ==> kind == AccessKind(f))
    ensures CopyOut.Access(kind, CopyOut.Cursor(Rows.CellBytes(RawOf(f)) + rest, false)) == (f, CopyOut.Cursor(rest, false))
  {
    hide I32, ReadI32, ReadI16, ReadI64, I16, I64;
    var raw := RawOf(f);
    var s := Rows.CellBytes(raw) + rest;
    ReadI32RoundTrip(if raw.None? then -1 else |raw.value|);
    if raw.None? {
      assert s[..4] == I32(-1) && s[4..] == rest;
    } else {
      var b := raw.value;
      assert s[..4] == I32(|b|) && s[4..] == b + rest && (b + rest)[..|b|] == b && (b + rest)[|b|..] == rest;
      CopyDecodes(f);
    }
  }

  lemma CopyDecodes(f: CopyIn.Field)
    requires CopyFits(f) && !f.Null?
    ensures var w := CopyOut.Width(AccessKind(f)); w.None? || w.value == |Send(SqlOf(f))|
    ensures CopyOut.Decode(AccessKind(f), Send(SqlOf(f))) == f
  {
    hide I32, ReadI32, ReadI16, ReadI64, I16, I64;
    match f
    case Int2(n) => ReadI16RoundTrip(n);
    case Int4(n) => ReadI32RoundTrip(n);
    case Int8(n) => ReadI64RoundTrip(n);
    case _ =>
  }

  // ---- Parameters ------------------------------------------------------------------------------------

  /** The texts of a boolean that are one letter long. */
  function ReadBool(t: bytes): Option<bool>
  {
    if t == Ascii("t") then Some(true) else if t == Ascii("f") then Some(false) else None
  }

  /** A bytea in hex format. */
  function ReadBytea(t: bytes): Option<bytes>
  {
    if Ascii("\\x") <= t then UnHex(t[2..]) else None
  }

  function ParamOid(v: SqlValue): Args.Oid
  {
    match v
    case SBool(_) => Args.OBool
    case SInt2(_) => Args.OInt2
    case SInt4(_) => Args.OInt4
    case SInt8(_) => Args.OInt8
    case SBytea(_) => Args.OBytea
    case _ => Args.OText
  }

  /** The value the server takes a parameter for: by its receive functions in binary, else from the text. */
  ghost predicate Receives(oid: Args.Oid, binary: bool, raw: bytes, v: SqlValue)
  {
    if binary then Sendable(v) && ParamOid(v) == oid && Send(v) == raw
    else
      match v
      case SBool(b) => ReadBool(raw) == Some(b)
      case SInt8(n) => Bytes.ReadInt(raw).Some? && Bytes.ReadInt(raw).value.0 == n && Bytes.ReadInt(raw).value.2 == []
      case SText(s) => raw == s
      case SBytea(bs) => ReadBytea(raw) == Some(bs)
      case _ => false
  }

  /** An argument as the value it stands for, at the type the server asks for. */
  function ArgValue(oid: Args.Oid, a: Args.Arg): SqlValue
    requires !a.Nil?
  {
    match a
    case ABool(b) => SBool(b)
    case AInt(_, n) => if oid.OInt2? then SInt2(n) else if oid.OInt4? then SInt4(n) else SInt8(n)
    case AString(s) => SText(s)
    case ABytes(bs) => SBytea(bs)
  }

  /** NULL goes as NULL and every other argument as its value, if that is one of the server's type. */
  lemma ParamReceived(oid: Args.Oid, a: Args.Arg)
    requires Args.ParamRaw(oid, a).Some?
    requires !a.Nil? && !oid.OOid? && (a.AInt? ==> Sendable(ArgValue(oid, a)))
    ensures var raw := Args.ParamRaw(oid, a).value;
            raw.Some? && Receives(oid, Args.ParamBinary(oid, a), raw.value, ArgValue(oid, a))
  {
    if a.AInt? {
      IntReceived(oid, a.kind, a.v);
    } else if a.ABytes? {
      BytesReceived(oid, a.bs);
    } else {
      PlainReceived(oid, a);
    }
  }

  lemma IntReceived(oid: Args.Oid, kind: Scan.IntKind, n: int)
    requires !oid.OOid? && Sendable(ArgValue(oid, Args.AInt(kind, n))) && Args.ParamRaw(oid, Args.AInt(kind, n)).Some?
    ensures var a := Args.AInt(kind, n);
            var raw := Args.ParamRaw(oid, a).value;
            raw.Some? && Receives(oid, Args.ParamBinary(oid, a), raw.value, ArgValue(oid, a))
  {
    hide I16, I32, I64, Bytes.ReadInt, IntText, Scan.Convert;
    if Args.ParamBinary(oid, Args.AInt(kind, n)) {
      Scan.ConvertExactIff(Scan.Int64, n);
    } else {
      ReadIntText(n, []);
      assert IntText(n) + [] == IntText(n);
    }
  }

  lemma BytesReceived(oid: Args.Oid, bs: bytes)
    ensures var a := Args.ABytes(bs);
            var raw := Args.ParamRaw(oid, a);
            raw.Some? && raw.value.Some? && Receives(oid, Args.ParamBinary(oid, a), raw.value.value, SBytea(bs))
  {
    hide Rows.HexText, UnHex;
    UnHexOf(bs);
    var t := [JsonWriter.SLASH, 0x78] + Rows.HexText(bs);
    assert t[2..] == Rows.HexText(bs);
    assert Ascii("\\x") == t[..2];
  }

  lemma PlainReceived(oid: Args.Oid, a: Args.Arg)
    requires a.ABool? || a.AString?
    ensures var raw := Args.ParamRaw(oid, a);
            raw.Some? && raw.value.Some? && Receives(oid, Args.ParamBinary(oid, a), raw.value.value, ArgValue(oid, a))
  {
    hide Bytes.ReadInt, Rows.HexText, UnHex;
    if a.ABool? && !Args.ParamBinary(oid, a) {
      assert Ascii("t") == [0x74] && Ascii("f") == [0x66];
    }
  }

  /** An argument goes in binary exactly when its type is the server's, integers of any size among each other. */
  lemma BinaryIff(oid: Args.Oid, a: Args.Arg)
    ensures Args.ParamBinary(oid, a)
       <==> (a.ABool? && oid.OBool?) || (a.ABytes? && oid.OBytea?) || (a.AInt? && Args.IntegerOid(oid))
  {
  }

  lemma NullParam(oid: Args.Oid, a: Args.Arg)
    ensures Args.ParamRaw(oid, a) == Some(None) <==> a.Nil?
  {
  }

  // ---- Spelling ---------------------------------------------------------------------------------------

  /** The marks and words of RFC 8259 and of ISO 8601, and the frame of the COPY format, are spelled as there. */
  lemma LettersAre()
    ensures [COMMA, COLON, OPEN_BRACE, CLOSE_BRACE, OPEN_BRACKET, CLOSE_BRACKET, NEWLINE] == Ascii(",:{}[]\n")
    ensures [JsonWriter.QUOTE, JsonWriter.SLASH] == Ascii("\"\\")
    ensures NULL == Ascii("null") && TRUE == Ascii("true") && FALSE == Ascii("false")
    ensures INFINITY_WORD == Ascii("infinity") && Rows.NAN_BODY == Ascii("NaN") && Rows.INFINITY_BODY == Ascii("Infinity")
    ensures [MINUS, ZERO, Numeric.DOT] == Ascii("-0.")
    ensures [Calendar.COLON, Calendar.DOT, Calendar.LETTER_T] == Ascii(":.T")
    ensures [Interval.LETTER_P, Interval.YEARS, Interval.MONTHS, Interval.DAYS] == Ascii("PYMD")
    ensures [Interval.LETTER_T, Interval.HOURS, Interval.MINUTES, Interval.DOT, Interval.SECONDS] == Ascii("THM.S")
    ensures CopyIn.PGCOPY == Ascii("PGCOPY\n") + [0xFF, 0x0D, 0x0A, 0x00] + (I32(0) + I32(0))
    ensures CopyIn.TRAILER == I16(-1) && [CopyIn.MSG_COPY_DATA] == Ascii("d")
  {
    Pow256Values();
    assert I32(0) == [0, 0, 0, 0];
  }
}
