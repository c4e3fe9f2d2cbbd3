/**
 From DataRow messages to JSON objects, JSON arrays and TOON lines (internal/rows,
 internal/types/binary.go), with readers for all three.
*/
module Rows {
  import opened Bytes
  import opened JsonWriter
  import opened Json
  import Calendar
  import DateTime
  import Interval
  import Numeric

  /** The column types modelled, each with its binary encoder. */
  datatype Kind =
    | String | Boolean | Int2 | Int4 | Int8 | Uuid | Bytea | Timestamp | TimestampTZ | Date | Duration
    | Decimals

  datatype Column = Column(name: bytes, kind: Kind)

  type Plan = seq<Column>
  type Raw = Option<bytes>

  // ---- Cells -------------------------------------------------------------------

  function HexText(s: bytes): bytes
  {
    if s == [] then [] else HexText(s[..|s| - 1]) + [Hex(s[|s| - 1] / 16), Hex(s[|s| - 1] % 16)]
  }

  method AppendHexBytes(dst: bytes, src: bytes) returns (out: bytes)
    ensures out == dst + HexText(src)
  {
    out := dst;
    for i := 0 to |src|
      invariant out == dst + HexText(src[..i])
    {
      assert src[..i + 1][..i] == src[..i];
      out := out + [Hex(src[i] / 16), Hex(src[i] % 16)];
    }
    assert src[..|src|] == src;
  }

  function UuidText(b: bytes): bytes
    requires |b| == 16
  {
    HexText(b[0..4]) + ([MINUS] + (HexText(b[4..6]) + ([MINUS] + (HexText(b[6..8])
    + ([MINUS] + (HexText(b[8..10]) + ([MINUS] + HexText(b[10..16]))))))))
  }

  const BYTEA_PREFIX: bytes := [SLASH, 0x78]

  /** What a column's encoder writes for a cell; None is SQL NULL. */
  function Encode(kind: Kind, raw: Raw): bytes
  {
    match (kind, raw)
    case (_, None) => NULL
    case (String, Some(b)) => Quoted(b)
    case (Boolean, Some(b)) => if |b| == 1 && b[0] != 0 then TRUE else FALSE
    case (Int2, Some(b)) => if |b| != 2 then Quoted(b) else IntText(ReadI16(b))
    case (Int4, Some(b)) => if |b| != 4 then Quoted(b) else IntText(ReadI32(b))
    case (Int8, Some(b)) => if |b| != 8 then Quoted(b) else IntText(ReadI64(b))
    case (Uuid, Some(b)) => if |b| != 16 then Quoted(b) else [QUOTE] + (UuidText(b) + [QUOTE])
    case (Bytea, Some(b)) => [QUOTE, SLASH, SLASH, 0x78] + (HexText(b) + [QUOTE])
    case (Timestamp, _) => DateTime.TimestampCell(raw, [])
    case (TimestampTZ, _) => DateTime.TimestampCell(raw, [0x5A])
    case (Date, _) => DateTime.DateCell(raw)
    case (Duration, _) => Interval.IntervalCell(raw)
    case (Decimals, _) => Numeric.NumericCell(raw)
  }

  /** A numeric's digits as one integer: the magnitude on the wire, cut off after `dscale` places. */
  function DecimalValue(neg: bool, ds: seq<nat>, weight: int, dscale: nat): Value
  {
    var n := |ds| + Interval.Abs(weight) + dscale;
    NumberValue(neg && ds != [], Numeric.Magnitude(ds, weight, n) / Pow10(4 * n - dscale), dscale)
  }

  const NAN_BODY: bytes := [0x4E, 0x61, 0x4E]
  const INFINITY_BODY: bytes := [0x49, 0x6E, 0x66, 0x69, 0x6E, 0x69, 0x74, 0x79]
  const MINUS_INFINITY_BODY: bytes := [MINUS, 0x49, 0x6E, 0x66, 0x69, 0x6E, 0x69, 0x74, 0x79]

  function NumericValue(b: bytes): Value
  {
    match Numeric.WireOf(b)
    case Malformed => Text(b)
    case NaN => Text(NAN_BODY)
    case Infinity => Text(INFINITY_BODY)
    case MinusInfinity => Text(MINUS_INFINITY_BODY)
    case Finite(neg, ds, weight, dscale) => DecimalValue(neg, ds, weight, dscale)
  }

  /** Base-10000 digits in range, and no zero digit in front of others: what a server sends. */
  predicate Normal(w: Numeric.Wire)
  {
    w.Finite? ==> Numeric.BaseDigits(w.ds) && !ExtraZero(w)
  }

  predicate ExtraZero(w: Numeric.Wire)
    requires w.Finite?
  {
    w.ds != [] && w.weight > 0 && w.ds[0] == 0
  }

  predicate NormalCell(kind: Kind, raw: Raw) { kind.Decimals? && raw.Some? ==> Normal(Numeric.WireOf(raw.value)) }

  /** Every numeric cell of the row is normal. */
  predicate NormalCells(plan: Plan, cells: seq<Raw>)
    requires |plan| == |cells|
  {
    forall i :: 0 <= i < |plan| ==> NormalCell(plan[i].kind, cells[i])
  }

  /** What a cell says, as a JSON value. */
  function CellOf(kind: Kind, raw: Raw): Value
  {
    match (kind, raw)
    case (_, None) => Null
    case (String, Some(b)) => Text(b)
    case (Boolean, Some(b)) => Bool(|b| == 1 && b[0] != 0)
    case (Int2, Some(b)) => if |b| != 2 then Text(b) else Number(ReadI16(b))
    case (Int4, Some(b)) => if |b| != 4 then Text(b) else Number(ReadI32(b))
    case (Int8, Some(b)) => if |b| != 8 then Text(b) else Number(ReadI64(b))
    case (Uuid, Some(b)) => if |b| != 16 then Text(b) else Text(UuidText(b))
    case (Bytea, Some(b)) => Text(BYTEA_PREFIX + HexText(b))
    case (Timestamp, Some(b)) => TimestampValue(b, [])
    case (TimestampTZ, Some(b)) => TimestampValue(b, [0x5A])
    case (Date, Some(b)) =>
      if |b| != 4 then Text(b)
      else
        var days := ReadI32(b);
        if days == TWO_31 - 1 then Text(DateTime.INFINITY)
        else if days == -TWO_31 then Text(DateTime.MINUS_INFINITY)
        else Text(DateTime.DateOnlyText(DateTime.WrapInt64(days * Calendar.USEC_PER_DAY)))
    case (Duration, Some(b)) =>
      if |b| != 16 then Text(b)
      else Text(Interval.DurationText(ReadI32(b[12..16]), ReadI32(b[8..12]), ReadI64(b[0..8])))
    case (Decimals, Some(b)) => NumericValue(b)
  }

  function TimestampValue(b: bytes, tz: bytes): Value
  {
    if |b| != 8 then Text(b)
    else
      var usec := ReadI64(b);
      if usec == TWO_63 - 1 then Text(DateTime.INFINITY)
      else if usec == -TWO_63 then Text(DateTime.MINUS_INFINITY)
      else Text(Calendar.TimestampText(usec, tz))
  }

  // ---- The unescaped fast paths ---------------------------------------------------

  predicate Clean(s: bytes) { forall k :: 0 <= k < |s| ==> !NeedsEscape(s[k]) }

  lemma CleanQuoted(s: bytes)
    requires Clean(s)
    ensures [QUOTE] + (s + [QUOTE]) == Quoted(s)
  {
    EscapePlain(s);
  }

  lemma DigitsClean(s: bytes)
    requires AllDigits(s)
    ensures Clean(s)
  {
  }

  lemma {:induction false} HexClean(s: bytes)
    ensures Clean(HexText(s))
  {
    if s != [] {
      HexClean(s[..|s| - 1]);
    }
  }

  lemma UuidClean(b: bytes)
    requires |b| == 16
    ensures Clean(UuidText(b))
  {
    hide HexText;
    HexClean(b[0..4]);
    HexClean(b[4..6]);
    HexClean(b[6..8]);
    HexClean(b[8..10]);
    HexClean(b[10..16]);
  }

  lemma IntTextClean(v: int)
    ensures Clean(IntText(v))
  {
    DigitsClean(NatText(if v < 0 then -v else v));
  }

  lemma DateTextClean(c: Calendar.Civil)
    requires Calendar.Valid(c)
    ensures Clean(Calendar.DateText(c))
  {
    hide Pad, NatText, IntText;
  }

  lemma ClockTextClean(c: Calendar.Civil)
    requires Calendar.Valid(c)
    ensures Clean(Calendar.ClockText(c))
  {
    hide Pad;
  }

  lemma TimestampTextClean(usec: int, tz: bytes)
    requires Clean(tz)
    ensures Clean(Calendar.TimestampText(usec, tz))
  {
    hide Calendar.SplitTime, Calendar.SplitUsec, Calendar.DateText, Calendar.ClockText, Pad;
    var (sec, frac) := Calendar.SplitUsec(usec);
    Calendar.SplitUsecCorrect(usec);
    Calendar.SplitTimeCorrect(sec);
    DateTextClean(Calendar.SplitTime(sec));
    ClockTextClean(Calendar.SplitTime(sec));
  }

  lemma DateOnlyClean(usec: int)
    ensures Clean(DateTime.DateOnlyText(usec))
  {
    hide Calendar.SplitTime, Calendar.DateText;
    Calendar.SplitTimeCorrect(Calendar.EPOCH + TruncDiv(usec, Calendar.USEC));
    DateTextClean(DateTime.DateOnly(usec));
  }

  lemma PartClean(v: int, designator: byte)
    requires !NeedsEscape(designator)
    ensures Clean(Interval.Part(v, designator))
  {
    hide IntText;
    IntTextClean(v);
  }

  lemma SecondsClean(secs: int, frac: int)
    ensures Clean(Interval.SecondsPart(secs, frac))
  {
    hide IntText, Pad, Interval.StripZeros;
    IntTextClean(secs);
  }

  lemma TimePartClean(micros: int)
    ensures Clean(Interval.TimePart(micros))
  {
    hide Interval.Part, Interval.SecondsPart, TruncDiv, TruncMod;
    var m := TruncMod(micros, Interval.USEC_PER_HOUR);
    var s := TruncMod(m, Interval.USEC_PER_MIN);
    PartClean(TruncDiv(micros, Interval.USEC_PER_HOUR), Interval.HOURS);
    PartClean(TruncDiv(m, Interval.USEC_PER_MIN), Interval.MINUTES);
    SecondsClean(TruncDiv(s, Interval.USEC), TruncMod(s, Interval.USEC));
  }

  lemma DurationClean(months: int, days: int, micros: int)
    ensures Clean(Interval.DurationText(months, days, micros))
  {
    hide Interval.Part, Interval.TimePart, TruncDiv, TruncMod;
    PartClean(TruncDiv(months, 12), Interval.YEARS);
    PartClean(TruncMod(months, 12), Interval.MONTHS);
    PartClean(days, Interval.DAYS);
    TimePartClean(micros);
  }

  lemma EscapeOne(c: byte)
    ensures EscapeBody([c]) == EscapeByte(c)
  {
    assert [c][..0] == [];
  }

  lemma ByteaQuoted(b: bytes)
    ensures [QUOTE, SLASH, SLASH, 0x78] + (HexText(b) + [QUOTE]) == Quoted(BYTEA_PREFIX + HexText(b))
  {
    hide HexText, EscapeBody;
    HexClean(b);
    EscapePlain(HexText(b));
    EscapeOne(SLASH);
    EscapeOne(0x78);
    EscapeBodyConcat([SLASH], [0x78]);
    assert [SLASH] + [0x78] == BYTEA_PREFIX;
    EscapeBodyConcat(BYTEA_PREFIX, HexText(b));
  }

  lemma TimestampRenders(b: bytes, tz: bytes)
    requires Clean(tz)
    ensures TimestampValue(b, tz).Text? && DateTime.TimestampCell(Some(b), tz) == Render(TimestampValue(b, tz))
  {
    hide Calendar.TimestampText, Quoted, EscapeBody;
    if |b| == 8 {
      TimestampTextClean(ReadI64(b), tz);
      CleanQuoted(Calendar.TimestampText(ReadI64(b), tz));
      CleanQuoted(DateTime.INFINITY);
      CleanQuoted(DateTime.MINUS_INFINITY);
    }
  }

  lemma DateRenders(b: bytes)
    ensures DateTime.DateCell(Some(b)) == Render(CellOf(Date, Some(b)))
  {
    hide DateTime.DateOnlyText, Quoted, EscapeBody, DateTime.WrapInt64;
    if |b| == 4 {
      var usec := DateTime.WrapInt64(ReadI32(b) * Calendar.USEC_PER_DAY);
      DateOnlyClean(usec);
      CleanQuoted(DateTime.DateOnlyText(usec));
      CleanQuoted(DateTime.INFINITY);
      CleanQuoted(DateTime.MINUS_INFINITY);
    }
  }

  lemma DurationRenders(b: bytes)
    ensures Interval.IntervalCell(Some(b)) == Render(CellOf(Duration, Some(b)))
  {
    hide Interval.DurationText, Quoted, EscapeBody;
    if |b| == 16 {
      var months, days, micros := ReadI32(b[12..16]), ReadI32(b[8..12]), ReadI64(b[0..8]);
      DurationClean(months, days, micros);
      CleanQuoted(Interval.DurationText(months, days, micros));
    }
  }

  lemma SpecialQuoted(s: bytes, text: bytes)
    requires Clean(s) && |text| == |s| + 2 && text[0] == QUOTE && text[|s| + 1] == QUOTE && text[1..|s| + 1] == s
    ensures text == Quoted(s)
  {
    hide Quoted;
    CleanQuoted(s);
    assert text == [text[0]] + (text[1..|s| + 1] + [text[|s| + 1]]);
  }

  /** NULL, malformed and special numerics are strings or null. */
  lemma NumericRenders(b: bytes)
    requires !Numeric.WireOf(b).Finite?
    ensures !NumericValue(b).Decimal? && Numeric.NumericCell(Some(b)) == Render(NumericValue(b))
  {
    hide Quoted, Numeric.WireOf;
    SpecialQuoted(NAN_BODY, Numeric.NAN_TEXT);
    SpecialQuoted(INFINITY_BODY, Numeric.INF_TEXT);
    SpecialQuoted(MINUS_INFINITY_BODY, Numeric.NEG_INF_TEXT);
  }

  predicate IsFinite(kind: Kind, raw: Raw) { kind.Decimals? && raw.Some? && Numeric.WireOf(raw.value).Finite? }

  /** A finite numeric is read back as its sign, digits and scale, unless zeros stand in front. */
  lemma FiniteReads(w: Numeric.Wire, tail: bytes)
    requires w.Finite? && Numeric.BaseDigits(w.ds) && Delimits(tail)
    ensures var text := Numeric.DecimalText(w.neg, w.ds, w.weight, w.dscale);
      && text != [] && (IsDigit(text[0]) || text[0] == MINUS)
      && ReadNumber(text + tail)
         == if ExtraZero(w) then None else Some((DecimalValue(w.neg, w.ds, w.weight, w.dscale), tail))
  {
    hide DecValue, Numeric.FracDigits, Numeric.IntDigits, Numeric.Sum, ReadNumber, Pow10, NumberValue;
    var Finite(neg, ds, weight, dscale) := w;
    var n := |ds| + Interval.Abs(weight) + dscale;
    var f := Numeric.FracDigits(ds, weight, dscale);
    var a := if ds == [] then [ZERO] else Numeric.IntDigits(ds, weight);
    var sign: bytes := if neg && ds != [] then [MINUS] else [];
    assert Numeric.DecimalText(neg, ds, weight, dscale) + tail
        == sign + (a + ((if f == [] then [] else [Numeric.DOT] + f) + tail));
    if ds == [] {
      Numeric.ZerosDenote(weight, dscale);
      ZeroMagnitude(weight, n, 4 * n - dscale);
    } else {
      Numeric.DigitsDenote(ds, weight, dscale, n);
      Numeric.LeadingZeroIff(ds, weight);
    }
    ReadNumberParts(neg && ds != [], a, f, tail);
    DecimalStart(w);
  }

  lemma ZeroMagnitude(weight: int, n: nat, k: nat)
    requires -1 <= weight + n
    ensures Numeric.Magnitude([], weight, n) / Pow10(k) == 0
  {
    DivIs(0, Pow10(k), 0, 0);
  }

  lemma DecimalStart(w: Numeric.Wire)
    requires w.Finite?
    ensures var text := Numeric.DecimalText(w.neg, w.ds, w.weight, w.dscale);
            text != [] && (IsDigit(text[0]) || text[0] == MINUS)
  {
    var a := if w.ds == [] then [ZERO] else Numeric.IntDigits(w.ds, w.weight);
    assert AllDigits(a) && IsDigit(a[0]);
  }

  /** A numeric cell is read back exactly when no zero digit stands in front of others. */
  lemma NumericReadsIff(b: bytes, tail: bytes)
    requires Delimits(tail) && (Numeric.WireOf(b).Finite? ==> Numeric.BaseDigits(Numeric.WireOf(b).ds))
    ensures ReadValue(Numeric.NumericCell(Some(b)) + tail) == Some((NumericValue(b), tail)) <==> Normal(Numeric.WireOf(b))
  {
    hide ReadNumber, Numeric.DecimalText, Numeric.WireOf, DecimalValue, Render, Quoted, Numeric.BaseDigits;
    var w := Numeric.WireOf(b);
    if w.Finite? {
      FiniteReads(w, tail);
      var text := Numeric.NumericCell(Some(b));
      assert (text + tail)[0] == text[0];
    } else {
      NumericRenders(b);
      ReadValueOf(NumericValue(b), tail);
    }
  }

  /** Encoders that skip escaping still write exactly the JSON form of their cell. */
  lemma EncodeRenders(kind: Kind, raw: Raw)
    requires !IsFinite(kind, raw)
    ensures !CellOf(kind, raw).Decimal? && Encode(kind, raw) == Render(CellOf(kind, raw))
  {
    hide Numeric.NumericCell, NumericValue, DateTime.TimestampCell, TimestampValue, DateTime.DateCell, Interval.IntervalCell, UuidText, HexText,
         Quoted, EscapeBody;
    if raw.Some? {
      var b := raw.value;
      match kind
      case Uuid =>
        if |b| == 16 {
          UuidClean(b);
          CleanQuoted(UuidText(b));
        }
      case Bytea => ByteaQuoted(b);
      case Timestamp => TimestampRenders(b, []);
      case TimestampTZ => TimestampRenders(b, [0x5A]);
      case Date => DateRenders(b);
      case Duration => DurationRenders(b);
      case Decimals => NumericRenders(b);
      case _ =>
    }
  }

  // ---- DataRow bodies ----------------------------------------------------------------

  /** One cell: a four-byte length, -1 for NULL, then that many bytes. */
  function TakeCell(s: bytes): (r: Option<(Raw, bytes)>)
    ensures r.Some? ==> |r.value.1| < |s|
  {
    if |s| < 4 then None
    else
      var n := ReadI32(s[..4]);
      if n == -1 then Some((None, s[4..]))
      else if n < 0 || n > |s| - 4 then None
      else Some((Some(s[4..4 + n]), s[4 + n..]))
  }

  /** The first `n` cells and what follows them. */
  function TakeCells(s: bytes, n: nat): (r: Option<(seq<Raw>, bytes)>)
    ensures r.Some? ==> |r.value.0| == n
  {
    if n == 0 then Some(([], s))
    else
      var (cells, rest) :- TakeCells(s, n - 1);
      var (cell, rest') :- TakeCell(rest);
      Some((cells + [cell], rest'))
  }

  /** The cells of a DataRow that must have `n` of them. */
  function DecodeRow(body: bytes, n: nat): (r: Option<seq<Raw>>)
    ensures r.Some? ==> |r.value| == n
  {
    if |body| < 2 || ReadI16(body[..2]) != n then None
    else
      var (cells, _) :- TakeCells(body[2..], n);
      Some(cells)
  }

  lemma {:induction false} TakeCellsFails(s: bytes, i: nat, n: nat)
    requires i <= n && TakeCells(s, i).None?
    ensures TakeCells(s, n).None?
  {
    if i < n {
      TakeCellsFails(s, i, n - 1);
    }
  }

  function CellBytes(cell: Raw): bytes
  {
    match cell
    case None => I32(-1)
    case Some(b) => I32(|b|) + b
  }

  function CellsBytes(cells: seq<Raw>): bytes
  {
    if cells == [] then [] else CellsBytes(cells[..|cells| - 1]) + CellBytes(cells[|cells| - 1])
  }

  /** The DataRow the server sends for these cells. */
  function RowBody(cells: seq<Raw>): bytes { I16(|cells|) + CellsBytes(cells) }

  predicate Sendable(cells: seq<Raw>)
  {
    |cells| < 0x8000 && Fits(cells)
  }

  lemma TakeCellOf(cell: Raw, rest: bytes)
    requires cell.Some? ==> |cell.value| < TWO_31
    ensures TakeCell(CellBytes(cell) + rest) == Some((cell, rest))
  {
    var s := CellBytes(cell) + rest;
    var n := if cell.Some? then |cell.value| else -1;
    ReadI32RoundTrip(n);
    assert s[..4] == I32(n);
    if cell.Some? {
      assert s[4..4 + n] == cell.value && s[4 + n..] == rest;
    }
  }

  lemma TakeCellsStep(s: bytes, cells: seq<Raw>, cell: Raw, rest: bytes, after: bytes)
    requires TakeCells(s, |cells|) == Some((cells, rest)) && TakeCell(rest) == Some((cell, after))
    ensures TakeCells(s, |cells| + 1) == Some((cells + [cell], after))
  {
    hide TakeCell;
  }

  predicate Fits(cells: seq<Raw>)
  {
    forall i :: 0 <= i < |cells| && cells[i].Some? ==> |cells[i].value| < TWO_31
  }

  lemma LastCell(cells: seq<Raw>, rest: bytes)
    requires cells != []
    ensures CellsBytes(cells) + rest == CellsBytes(cells[..|cells| - 1]) + (CellBytes(cells[|cells| - 1]) + rest)
  {
    hide CellBytes, CellsBytes;
    LastCellIs(cells);
    Assoc(CellsBytes(cells[..|cells| - 1]), CellBytes(cells[|cells| - 1]), rest);
  }

  lemma LastCellIs(cells: seq<Raw>)
    requires cells != []
    ensures CellsBytes(cells) == CellsBytes(cells[..|cells| - 1]) + CellBytes(cells[|cells| - 1])
  {
    hide CellBytes;
  }

  lemma TakeLastCell(cells: seq<Raw>, rest: bytes)
    requires cells != [] && (cells[|cells| - 1].Some? ==> |cells[|cells| - 1].value| < TWO_31)
    requires var front, tail := cells[..|cells| - 1], CellBytes(cells[|cells| - 1]) + rest;
             TakeCells(CellsBytes(front) + tail, |front|) == Some((front, tail))
    ensures TakeCells(CellsBytes(cells) + rest, |cells|) == Some((cells, rest))
  {
    hide TakeCell, CellBytes, TakeCells, CellsBytes;
    var n := |cells| - 1;
    LastCell(cells, rest);
    TakeCellOf(cells[n], rest);
    TakeCellsStep(CellsBytes(cells) + rest, cells[..n], cells[n], CellBytes(cells[n]) + rest, rest);
    assert cells == cells[..n] + [cells[n]];
  }

  lemma {:induction false} TakeCellsOf(cells: seq<Raw>, rest: bytes)
    requires Fits(cells)
    ensures TakeCells(CellsBytes(cells) + rest, |cells|) == Some((cells, rest))
  {
    if cells == [] {
      assert CellsBytes(cells) + rest == rest;
    } else {
      hide CellBytes, TakeCells, CellsBytes;
      TakeCellsOf(cells[..|cells| - 1], CellBytes(cells[|cells| - 1]) + rest);
      TakeLastCell(cells, rest);
    }
  }

  /** A row the server sends is decoded to its cells. */
  lemma DecodeRowOf(cells: seq<Raw>)
    requires Sendable(cells)
    ensures DecodeRow(RowBody(cells), |cells|) == Some(cells)
  {
    ReadI16RoundTrip(|cells|);
    var b := RowBody(cells);
    assert b[..2] == I16(|cells|) && b[2..] == CellsBytes(cells) + [];
    TakeCellsOf(cells, []);
  }

  lemma TakeCellIs(s: bytes)
    requires TakeCell(s).Some?
    ensures var (cell, rest) := TakeCell(s).value;
            s == CellBytes(cell) + rest && (cell.Some? ==> |cell.value| < TWO_31)
  {
    hide ReadI32, I32;
    I32OfRead(s[..4]);
    ReadI32Bound(s[..4]);
  }

  lemma ReadI32Bound(s: bytes)
    requires |s| == 4
    ensures IsInt32(ReadI32(s))
  {
    Pow256Values();
    FromBEBound(s);
  }

  lemma {:induction false} TakeCellsIs(s: bytes, n: nat)
    requires TakeCells(s, n).Some?
    ensures var (cells, rest) := TakeCells(s, n).value; Fits(cells) && s == CellsBytes(cells) + rest
  {
    if n > 0 {
      hide TakeCell, CellBytes;
      TakeCellsIs(s, n - 1);
      var (front, tail) := TakeCells(s, n - 1).value;
      TakeCellIs(tail);
      var (cell, rest) := TakeCell(tail).value;
      Assoc(CellsBytes(front), CellBytes(cell), rest);
    }
  }

  /** A body is decoded exactly when it is a row of that many cells, perhaps with more bytes behind it. */
  lemma DecodeRowIff(body: bytes, n: nat, cells: seq<Raw>)
    ensures DecodeRow(body, n) == Some(cells) <==> |cells| == n && Sendable(cells) && RowBody(cells) <= body
  {
    hide I16, ReadI16, TakeCells, CellsBytes, Fits;
    if |body| >= 2 && ReadI16(body[..2]) == n && TakeCells(body[2..], n).Some? {
      TakeCellsIs(body[2..], n);
      I16OfRead(body[..2]);
      ReadI16Bound(body[..2]);
      var (front, rest) := TakeCells(body[2..], n).value;
      assert body == I16(n) + (CellsBytes(front) + rest);
    }
    if |cells| == n && Sendable(cells) && RowBody(cells) <= body {
      var rest := body[|RowBody(cells)|..];
      ReadI16RoundTrip(|cells|);
      assert body[..2] == I16(|cells|) && body[2..] == CellsBytes(cells) + rest;
      TakeCellsOf(cells, rest);
    }
  }

  lemma ReadI16Bound(s: bytes)
    requires |s| == 2
    ensures IsInt16(ReadI16(s))
  {
    Pow256Values();
    FromBEBound(s);
  }

  // ---- The three row forms -------------------------------------------------------------

  function Key(name: bytes): bytes { Quoted(name) + [COLON] }

  function Member(col: Column, cell: Raw): bytes { Key(col.name) + Encode(col.kind, cell) }

  function Members(plan: Plan, cells: seq<Raw>): (r: seq<bytes>)
    requires |plan| == |cells|
    ensures |r| == |plan| && forall i :: 0 <= i < |r| ==> r[i] == Member(plan[i], cells[i])
  {
    seq(|plan|, i requires 0 <= i < |plan| => Member(plan[i], cells[i]))
  }

  function Texts(plan: Plan, cells: seq<Raw>): (r: seq<bytes>)
    requires |plan| == |cells|
    ensures |r| == |plan| && forall i :: 0 <= i < |r| ==> r[i] == Encode(plan[i].kind, cells[i])
  {
    seq(|plan|, i requires 0 <= i < |plan| => Encode(plan[i].kind, cells[i]))
  }

  function ObjectText(plan: Plan, cells: seq<Raw>): bytes
    requires |plan| == |cells|
  {
    [OPEN_BRACE] + (Joined(Members(plan, cells)) + [CLOSE_BRACE])
  }

  function ArrayText(plan: Plan, cells: seq<Raw>): bytes
    requires |plan| == |cells|
  {
    [OPEN_BRACKET] + (Joined(Texts(plan, cells)) + [CLOSE_BRACKET])
  }

  function ToonText(plan: Plan, cells: seq<Raw>): bytes
    requires |plan| == |cells|
  {
    Joined(Texts(plan, cells)) + [NEWLINE]
  }

  /** One more column: a comma unless it is the first, then its text. */
  lemma JoinedStep(texts: seq<bytes>, text: bytes)
    ensures Joined(texts + [text]) == Joined(texts) + ((if |texts| > 0 then [COMMA] else []) + text)
  {
    assert (texts + [text])[..|texts|] == texts;
  }

  lemma MembersStep(plan: Plan, cells: seq<Raw>, cell: Raw)
    requires |cells| < |plan|
    ensures Members(plan[..|cells| + 1], cells + [cell])
         == Members(plan[..|cells|], cells) + [Member(plan[|cells|], cell)]
  {
    hide Member;
  }

  lemma TextsStep(plan: Plan, cells: seq<Raw>, cell: Raw)
    requires |cells| < |plan|
    ensures Texts(plan[..|cells| + 1], cells + [cell])
         == Texts(plan[..|cells|], cells) + [Encode(plan[|cells|].kind, cell)]
  {
    hide Encode;
  }

  /** The cell read that the three loops below share; they write it out inline. */
  method NextCell(s: bytes) returns (r: Option<(Raw, bytes)>)
    ensures r == TakeCell(s)
  {
    if |s| < 4 {
      return None;
    }
    var l := ReadI32(s[..4]);
    var body := s[4..];
    var raw: Raw := None;
    if l != -1 {
      if l < 0 || l > |body| {
        return None;
      }
      raw := Some(body[..l]);
      body := body[l..];
      assert s[4..][..l] == s[4..4 + l] && s[4..][l..] == s[4 + l..];
    }
    r := Some((raw, body));
  }

  /** Walks one DataRow and writes an object; a malformed row leaves a partial object behind. */
  method AppendObject(dst: bytes, body: bytes, plan: Plan) returns (out: bytes, ok: bool)
    ensures dst <= out
    ensures ok <==> DecodeRow(body, |plan|).Some?
    ensures ok ==> out == dst + ObjectText(plan, DecodeRow(body, |plan|).value)
  {
    hide Encode, Joined, Members, TakeCell, Key, ReadI16;
    out, ok := dst, false;
    if |body| < 2 {
      return;
    }
    var n := ReadI16(body[..2]);
    if n != |plan| {
      return;
    }
    var rest := body[2..];
    out := out + [OPEN_BRACE];
    ghost var cells: seq<Raw> := [];
    JoinedNone(Members(plan[..0], cells));
    for i := 0 to n
      invariant |cells| == i && TakeCells(body[2..], i) == Some((cells, rest))
      invariant dst <= out && out == dst + ([OPEN_BRACE] + Joined(Members(plan[..i], cells)))
    {
      var next := NextCell(rest);
      if next.None? {
        TakeCellsFails(body[2..], i + 1, n);
        return;
      }
      MembersStep(plan, cells, next.value.0);
      JoinedStep(Members(plan[..i], cells), Member(plan[i], next.value.0));
      rest := next.value.1;
      if i == 0 {
        out := out + Key(plan[i].name);
      } else {
        out := out + ([COMMA] + Key(plan[i].name));
      }
      out := out + Encode(plan[i].kind, next.value.0);
      cells := cells + [next.value.0];
    }
    assert plan[..n] == plan;
    out := out + [CLOSE_BRACE];
    ok := true;
  }

  lemma JoinedNone(texts: seq<bytes>)
    requires texts == []
    ensures Joined(texts) == []
  {
  }

  method AppendArray(dst: bytes, body: bytes, plan: Plan) returns (out: bytes, ok: bool)
    ensures dst <= out
    ensures ok <==> DecodeRow(body, |plan|).Some?
    ensures ok ==> out == dst + ArrayText(plan, DecodeRow(body, |plan|).value)
  {
    hide Encode, Joined, Texts, TakeCell, ReadI16;
    out, ok := dst, false;
    if |body| < 2 {
      return;
    }
    var n := ReadI16(body[..2]);
    if n != |plan| {
      return;
    }
    var rest := body[2..];
    out := out + [OPEN_BRACKET];
    ghost var cells: seq<Raw> := [];
    JoinedNone(Texts(plan[..0], cells));
    for i := 0 to n
      invariant |cells| == i && TakeCells(body[2..], i) == Some((cells, rest))
      invariant dst <= out && out == dst + ([OPEN_BRACKET] + Joined(Texts(plan[..i], cells)))
    {
      var next := NextCell(rest);
      if next.None? {
        TakeCellsFails(body[2..], i + 1, n);
        return;
      }
      TextsStep(plan, cells, next.value.0);
      JoinedStep(Texts(plan[..i], cells), Encode(plan[i].kind, next.value.0));
      rest := next.value.1;
      if i > 0 {
        out := out + [COMMA];
      }
      out := out + Encode(plan[i].kind, next.value.0);
      cells := cells + [next.value.0];
    }
    assert plan[..n] == plan;
    out := out + [CLOSE_BRACKET];
    ok := true;
  }

  method AppendTOONRow(dst: bytes, body: bytes, plan: Plan) returns (out: bytes, ok: bool)
    ensures dst <= out
    ensures ok <==> DecodeRow(body, |plan|).Some?
    ensures ok ==> out == dst + ToonText(plan, DecodeRow(body, |plan|).value)
  {
    hide Encode, Joined, Texts, TakeCell, ReadI16;
    out, ok := dst, false;
    if |body| < 2 {
      return;
    }
    var n := ReadI16(body[..2]);
    if n != |plan| {
      return;
    }
    var rest := body[2..];
    ghost var cells: seq<Raw> := [];
    JoinedNone(Texts(plan[..0], cells));
    for i := 0 to n
      invariant |cells| == i && TakeCells(body[2..], i) == Some((cells, rest))
      invariant dst <= out && out == dst + Joined(Texts(plan[..i], cells))
    {
      var next := NextCell(rest);
      if next.None? {
        TakeCellsFails(body[2..], i + 1, n);
        return;
      }
      TextsStep(plan, cells, next.value.0);
      JoinedStep(Texts(plan[..i], cells), Encode(plan[i].kind, next.value.0));
      rest := next.value.1;
      if i > 0 {
        out := out + [COMMA];
      }
      out := out + Encode(plan[i].kind, next.value.0);
      cells := cells + [next.value.0];
    }
    assert plan[..n] == plan;
    out := out + [NEWLINE];
    ok := true;
  }

  // ---- Reading rows back -----------------------------------------------------------------

  function ReadMember(s: bytes): Option<((bytes, Value), bytes)>
  {
    var (name, s1) :- ReadString(s);
    var s2 :- Expect(s1, COLON);
    var (v, s3) :- ReadValue(s2);
    Some(((name, v), s3))
  }

  function ReadObject(s: bytes): Option<(seq<(bytes, Value)>, bytes)>
  {
    var t :- Expect(s, OPEN_BRACE);
    ReadList(ReadMember, t, CLOSE_BRACE)
  }

  function ReadArray(s: bytes): Option<(seq<Value>, bytes)>
  {
    var t :- Expect(s, OPEN_BRACKET);
    ReadList(ReadValue, t, CLOSE_BRACKET)
  }

  function ReadToonRow(s: bytes): Option<(seq<Value>, bytes)> { ReadList(ReadValue, s, NEWLINE) }

  /** The values of a row. */
  function Values(plan: Plan, cells: seq<Raw>): (r: seq<Value>)
    requires |plan| == |cells|
    ensures |r| == |plan| && forall i :: 0 <= i < |r| ==> r[i] == CellOf(plan[i].kind, cells[i])
  {
    seq(|plan|, i requires 0 <= i < |plan| => CellOf(plan[i].kind, cells[i]))
  }

  /** The row as name-value pairs, in column order. */
  function Pairs(plan: Plan, cells: seq<Raw>): (r: seq<(bytes, Value)>)
    requires |plan| == |cells|
    ensures |r| == |plan|
    ensures forall i :: 0 <= i < |r| ==> r[i] == (plan[i].name, CellOf(plan[i].kind, cells[i]))
  {
    seq(|plan|, i requires 0 <= i < |plan| => (plan[i].name, CellOf(plan[i].kind, cells[i])))
  }

  /** Bytes that may close a list: not a digit, and not the start of a value. */
  predicate Closer(close: byte) { close == CLOSE_BRACE || close == CLOSE_BRACKET || close == NEWLINE }

  lemma ValueStart(v: Value, close: byte)
    requires Closer(close) && !v.Decimal?
    ensures Render(v)[0] != close
  {
    match v
    case Number(n) => NumberFirst(n);
    case Text(t) => QuoteFirst(t);
    case _ =>
  }

  /** A cell's text is read back as its value, wherever it stands. */
  lemma CellReads(kind: Kind, raw: Raw, tail: bytes)
    requires Delimits(tail) && NormalCell(kind, raw)
    ensures ReadValue(Encode(kind, raw) + tail) == Some((CellOf(kind, raw), tail))
  {
    hide ReadValue, Render, Normal, NumericValue, Numeric.NumericCell, Numeric.WireOf;
    if kind.Decimals? && raw.Some? {
      assert Encode(kind, raw) == Numeric.NumericCell(raw) && CellOf(kind, raw) == NumericValue(raw.value);
      NormalDigits(raw.value);
      NumericReadsIff(raw.value, tail);
    } else {
      hide Encode, CellOf;
      EncodeRenders(kind, raw);
      ReadValueOf(CellOf(kind, raw), tail);
    }
  }

  lemma NormalDigits(b: bytes)
    requires Normal(Numeric.WireOf(b))
    ensures Numeric.WireOf(b).Finite? ==> Numeric.BaseDigits(Numeric.WireOf(b).ds)
  {
  }

  lemma CellStart(kind: Kind, raw: Raw, close: byte)
    requires Closer(close)
    ensures Encode(kind, raw) != [] && Encode(kind, raw)[0] != close
  {
    if IsFinite(kind, raw) {
      hide Numeric.DecimalText;
      DecimalStart(Numeric.WireOf(raw.value));
    } else {
      hide Encode, CellOf, Render;
      EncodeRenders(kind, raw);
      ValueStart(CellOf(kind, raw), close);
    }
  }

  lemma ReadsCell(kind: Kind, raw: Raw, close: byte)
    requires Closer(close) && NormalCell(kind, raw)
    ensures Reads(ReadValue, Encode(kind, raw), CellOf(kind, raw), close)
  {
    hide Encode, CellOf, ReadValue, NormalCell;
    CellStart(kind, raw, close);
    forall tail | Ends(tail, close)
      ensures ReadValue(Encode(kind, raw) + tail) == Some((CellOf(kind, raw), tail))
    {
      CellReads(kind, raw, tail);
    }
  }

  lemma ReadMemberOf(col: Column, cell: Raw, tail: bytes)
    requires Delimits(tail) && NormalCell(col.kind, cell)
    ensures ReadMember(Member(col, cell) + tail) == Some(((col.name, CellOf(col.kind, cell)), tail))
  {
    hide Encode, CellOf, ReadValue, NormalCell, Quoted, ReadString;
    var text := Encode(col.kind, cell);
    CellReads(col.kind, cell, tail);
    ReadStringOf(col.name, [COLON] + (text + tail));
    ExpectOf(COLON, text + tail);
    assert Member(col, cell) + tail == Quoted(col.name) + ([COLON] + (text + tail));
  }

  lemma MemberStart(col: Column, cell: Raw)
    ensures Member(col, cell) != [] && Member(col, cell)[0] == QUOTE
  {
    hide Encode, EscapeBody;
  }

  lemma ReadsMember(col: Column, cell: Raw)
    requires NormalCell(col.kind, cell)
    ensures Reads(ReadMember, Member(col, cell), (col.name, CellOf(col.kind, cell)), CLOSE_BRACE)
  {
    hide Member, CellOf, ReadMember, NormalCell;
    MemberStart(col, cell);
    forall tail | Ends(tail, CLOSE_BRACE)
      ensures ReadMember(Member(col, cell) + tail) == Some(((col.name, CellOf(col.kind, cell)), tail))
    {
      ReadMemberOf(col, cell, tail);
    }
  }

  /** An RFC 8259 reader gets exactly the column names, in order, with their cells. */
  lemma ObjectRoundTrip(plan: Plan, cells: seq<Raw>, rest: bytes)
    requires |plan| == |cells| && NormalCells(plan, cells)
    ensures ReadObject(ObjectText(plan, cells) + rest) == Some((Pairs(plan, cells), rest))
  {
    hide Member, CellOf, ReadMember, ReadList, Joined, Reads, NormalCell;
    forall i | 0 <= i < |plan|
      ensures Reads(ReadMember, Members(plan, cells)[i], Pairs(plan, cells)[i], CLOSE_BRACE)
    {
      ReadsMember(plan[i], cells[i]);
    }
    ReadListOf(ReadMember, Members(plan, cells), Pairs(plan, cells), CLOSE_BRACE, rest);
    var t := Joined(Members(plan, cells)) + ([CLOSE_BRACE] + rest);
    ExpectOf(OPEN_BRACE, t);
    assert ObjectText(plan, cells) + rest == [OPEN_BRACE] + t;
  }

  lemma ReadsTexts(plan: Plan, cells: seq<Raw>, close: byte)
    requires |plan| == |cells| && NormalCells(plan, cells) && Closer(close)
    ensures ReadsAll(ReadValue, Texts(plan, cells), Values(plan, cells), close)
  {
    hide Encode, CellOf, ReadValue, Reads, NormalCell;
    forall i | 0 <= i < |plan|
      ensures Reads(ReadValue, Texts(plan, cells)[i], Values(plan, cells)[i], close)
    {
      ReadsCell(plan[i].kind, cells[i], close);
    }
  }

  lemma ArrayRoundTrip(plan: Plan, cells: seq<Raw>, rest: bytes)
    requires |plan| == |cells| && NormalCells(plan, cells)
    ensures ReadArray(ArrayText(plan, cells) + rest) == Some((Values(plan, cells), rest))
  {
    hide CellOf, ReadValue, ReadList, Joined, ReadsAll, Texts, Values, NormalCells;
    ReadsTexts(plan, cells, CLOSE_BRACKET);
    ReadListOf(ReadValue, Texts(plan, cells), Values(plan, cells), CLOSE_BRACKET, rest);
    var t := Joined(Texts(plan, cells)) + ([CLOSE_BRACKET] + rest);
    ExpectOf(OPEN_BRACKET, t);
    assert ArrayText(plan, cells) + rest == [OPEN_BRACKET] + t;
  }

  lemma ToonRoundTrip(plan: Plan, cells: seq<Raw>, rest: bytes)
    requires |plan| == |cells| && NormalCells(plan, cells)
    ensures ReadToonRow(ToonText(plan, cells) + rest) == Some((Values(plan, cells), rest))
  {
    hide CellOf, ReadValue, ReadList, Joined, ReadsAll, Texts, Values, NormalCells;
    ReadsTexts(plan, cells, NEWLINE);
    ReadListOf(ReadValue, Texts(plan, cells), Values(plan, cells), NEWLINE, rest);
    assert ToonText(plan, cells) + rest == Joined(Texts(plan, cells)) + ([NEWLINE] + rest);
  }

  // ---- Newlines ------------------------------------------------------------------------------

  predicate Printable(s: bytes) { forall k :: 0 <= k < |s| ==> s[k] >= 0x20 }

  lemma QuotedPrintable(s: bytes)
    ensures Printable(Quoted(s))
  {
    hide EscapeBody;
    EscapedHasNoControl(s);
  }

  lemma ValuePrintable(v: Value)
    requires !v.Decimal?
    ensures Printable(Render(v))
  {
    hide Quoted, IntText;
    match v
    case Number(n) => IntTextClean(n);
    case Text(s) => QuotedPrintable(s);
    case _ =>
  }

  lemma DecimalPrintable(w: Numeric.Wire)
    requires w.Finite?
    ensures Printable(Numeric.DecimalText(w.neg, w.ds, w.weight, w.dscale))
  {
    hide Numeric.FracDigit, Numeric.IntDigits, Numeric.FracDigits;
    var a := if w.ds == [] then [ZERO] else Numeric.IntDigits(w.ds, w.weight);
    assert Printable(a) && Printable(Numeric.FracDigits(w.ds, w.weight, w.dscale));
  }

  lemma CellPrintable(kind: Kind, raw: Raw)
    ensures Printable(Encode(kind, raw))
  {
    if IsFinite(kind, raw) {
      hide Numeric.DecimalText, Numeric.WireOf;
      DecimalPrintable(Numeric.WireOf(raw.value));
    } else {
      hide Encode, CellOf, Render, Printable;
      EncodeRenders(kind, raw);
      ValuePrintable(CellOf(kind, raw));
    }
  }

  lemma {:induction false} JoinedPrintable(texts: seq<bytes>)
    requires forall i :: 0 <= i < |texts| ==> Printable(texts[i])
    ensures Printable(Joined(texts))
  {
    if |texts| > 1 {
      JoinedPrintable(texts[..|texts| - 1]);
    }
  }

  /** No row form has a control byte inside: the newline that ends a line is the only one. */
  lemma RowsArePrintable(plan: Plan, cells: seq<Raw>)
    requires |plan| == |cells|
    ensures Printable(ObjectText(plan, cells)) && Printable(ArrayText(plan, cells))
    ensures var t := ToonText(plan, cells); Printable(t[..|t| - 1]) && t[|t| - 1] == NEWLINE
  {
    hide Encode, Joined, Quoted;
    forall i | 0 <= i < |plan|
      ensures Printable(Members(plan, cells)[i]) && Printable(Texts(plan, cells)[i])
    {
      CellPrintable(plan[i].kind, cells[i]);
      QuotedPrintable(plan[i].name);
    }
    JoinedPrintable(Members(plan, cells));
    JoinedPrintable(Texts(plan, cells));
    var t := ToonText(plan, cells);
    assert t[..|t| - 1] == Joined(Texts(plan, cells));
  }
}
