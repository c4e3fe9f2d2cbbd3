/**
 PostgreSQL's base-10000 numeric wire format as decimal text (internal/types/numeric_bin.go),
 and what that text denotes.
*/
module Numeric {
  import opened Bytes
  import opened JsonWriter
  import DateTime

  const DOT: byte := 0x2E
  const NAN_TEXT: bytes := [QUOTE, 0x4E, 0x61, 0x4E, QUOTE]
  const INF_TEXT: bytes := [QUOTE, 0x49, 0x6E, 0x66, 0x69, 0x6E, 0x69, 0x74, 0x79, QUOTE]
  const NEG_INF_TEXT: bytes := [QUOTE, MINUS, 0x49, 0x6E, 0x66, 0x69, 0x6E, 0x69, 0x74, 0x79, QUOTE]

  /** Base-10000 digit `i`; positions outside the stored digits are zero. */
  function DigitAt(ds: seq<nat>, i: int): nat
  {
    if 0 <= i < |ds| then ds[i] else 0
  }

  function WireDigits(body: bytes, n: nat): (ds: seq<nat>)
    requires 2 * n <= |body|
    ensures |ds| == n
    ensures forall i :: 0 <= i < n ==> ds[i] == ReadU16(body[2 * i..2 * i + 2])
  {
    if n == 0 then [] else WireDigits(body, n - 1) + [ReadU16(body[2 * (n - 1)..2 * (n - 1) + 2])]
  }

  // ---- What the encoder writes --------------------------------------------------

  /** The limbs at indices lo, ..., lo + count - 1, four decimal digits each. */
  function Limbs(ds: seq<nat>, lo: int, count: nat): (s: bytes)
    ensures |s| == 4 * count && AllDigits(s)
  {
    if count == 0 then [] else Limbs(ds, lo, count - 1) + Pad(DigitAt(ds, lo + count - 1), 4)
  }

  function IntDigits(ds: seq<nat>, weight: int): (s: bytes)
    ensures |s| > 0 && AllDigits(s)
  {
    if weight < 0 then [ZERO] else NatText(DigitAt(ds, 0)) + Limbs(ds, 1, weight)
  }

  function Divisor(inner: nat): nat
    requires inner < 4
    ensures Divisor(inner) > 0
  {
    if inner == 0 then 1000 else if inner == 1 then 100 else if inner == 2 then 10 else 1
  }

  /** Decimal position `p` after the point. */
  function FracDigit(ds: seq<nat>, weight: int, p: nat): byte
  {
    ZERO + DigitAt(ds, weight + 1 + p / 4) / Divisor(p % 4) % 10
  }

  function FracDigits(ds: seq<nat>, weight: int, dscale: nat): (s: bytes)
    ensures |s| == dscale && AllDigits(s)
    ensures forall p :: 0 <= p < dscale ==> s[p] == FracDigit(ds, weight, p)
  {
    if dscale == 0 then []
    else FracDigits(ds, weight, dscale - 1) + [FracDigit(ds, weight, dscale - 1)]
  }

  function DecimalText(neg: bool, ds: seq<nat>, weight: int, dscale: nat): bytes
  {
    var sign: bytes := if neg && ds != [] then [MINUS] else [];
    var ints: bytes := if ds == [] then [ZERO] else IntDigits(ds, weight);
    sign + (ints + (if dscale == 0 then [] else [DOT] + FracDigits(ds, weight, dscale)))
  }

  /** A numeric on the wire: malformed, one of the special values, or finite. */
  datatype Wire = Malformed | NaN | Infinity | MinusInfinity | Finite(neg: bool, ds: seq<nat>, weight: int, dscale: nat)

  function WireOf(b: bytes): Wire
  {
    if |b| < 8 then Malformed
    else
      var ndigits, dscale := ReadI16(b[0..2]), ReadI16(b[6..8]);
      var sign := ReadU16(b[4..6]);
      if ndigits < 0 || dscale < 0 || |b| - 8 < 2 * ndigits then Malformed
      else if sign == 0xC000 then NaN
      else if sign == 0xD000 then Infinity
      else if sign == 0xF000 then MinusInfinity
      else if sign != 0 && sign != 0x4000 then Malformed
      else Finite(sign == 0x4000, WireDigits(b[8..], ndigits), ReadI16(b[2..4]), dscale)
  }

  /** The whole cell: NULL, malformed input, the special values, then finite numbers. */
  function NumericCell(raw: Option<bytes>): bytes
  {
    match raw
    case None => DateTime.NULL_TEXT
    case Some(b) =>
      match WireOf(b)
      case Malformed => Quoted(b)
      case NaN => NAN_TEXT
      case Infinity => INF_TEXT
      case MinusInfinity => NEG_INF_TEXT
      case Finite(neg, ds, weight, dscale) => DecimalText(neg, ds, weight, dscale)
  }

  method AppendFrac(dst: bytes, ds: seq<nat>, weight: int, dscale: nat) returns (out: bytes)
    ensures out == dst + ([DOT] + FracDigits(ds, weight, dscale))
  {
    hide FracDigit;
    out := dst + [DOT];
    for p := 0 to dscale
      invariant out == dst + ([DOT] + FracDigits(ds, weight, p))
    {
      out := out + [FracDigit(ds, weight, p)];
    }
  }

  method AppendZero(dst: bytes, weight: int, dscale: nat) returns (out: bytes)
    ensures out == dst + DecimalText(false, [], weight, dscale)
  {
    hide FracDigit;
    out := dst + [ZERO];
    if dscale > 0 {
      out := out + [DOT];
      for i := 0 to dscale
        invariant out == dst + ([ZERO, DOT] + FracDigits([], weight, i))
      {
        ZeroFracDigit(weight, i);
        out := out + [ZERO];
      }
      assert [ZERO, DOT] + FracDigits([], weight, dscale) == [ZERO] + ([DOT] + FracDigits([], weight, dscale));
    }
  }

  method AppendInts(dst: bytes, ds: seq<nat>, weight: int) returns (out: bytes)
    ensures out == dst + IntDigits(ds, weight)
  {
    hide NatText, Pad;
    if weight < 0 {
      out := dst + [ZERO];
    } else {
      var d := NatText(DigitAt(ds, 0));
      out := dst + d;
      for i := 0 to weight
        invariant out == dst + (d + Limbs(ds, 1, i))
      {
        out := out + Pad(DigitAt(ds, i + 1), 4);
      }
    }
  }

  method AppendDecimal(dst: bytes, neg: bool, ds: seq<nat>, weight: int, dscale: nat) returns (out: bytes)
    ensures out == dst + DecimalText(neg, ds, weight, dscale)
  {
    hide IntDigits, FracDigits;
    if ds == [] {
      out := AppendZero(dst, weight, dscale);
      return;
    }
    out := dst;
    if neg {
      out := out + [MINUS];
    }
    out := AppendInts(out, ds, weight);
    if dscale == 0 {
      return;
    }
    out := AppendFrac(out, ds, weight, dscale);
  }

  lemma ZeroFracDigit(weight: int, p: nat)
    ensures FracDigit([], weight, p) == ZERO
  {
  }

  method EncodeNumericBinary(dst: bytes, raw: Option<bytes>) returns (out: bytes)
    ensures out == dst + NumericCell(raw)
  {
    hide DecimalText, Quoted;
    if raw.None? {
      return dst + DateTime.NULL_TEXT;
    }
    var b := raw.value;
    if |b| < 8 {
      out := AppendStringBytes(dst, b);
      return;
    }
    var ndigits, weight, sign, dscale := ReadI16(b[0..2]), ReadI16(b[2..4]), ReadU16(b[4..6]), ReadI16(b[6..8]);
    if ndigits < 0 || dscale < 0 || |b| - 8 < 2 * ndigits {
      out := AppendStringBytes(dst, b);
      return;
    }
    if sign == 0xC000 {
      return dst + NAN_TEXT;
    } else if sign == 0xD000 {
      return dst + INF_TEXT;
    } else if sign == 0xF000 {
      return dst + NEG_INF_TEXT;
    } else if sign != 0 && sign != 0x4000 {
      out := AppendStringBytes(dst, b);
      return;
    }
    out := AppendDecimal(dst, sign == 0x4000, WireDigits(b[8..], ndigits), weight, dscale);
  }

  // ---- What the text denotes ------------------------------------------------------

  predicate BaseDigits(ds: seq<nat>) { forall i :: 0 <= i < |ds| ==> ds[i] < 10000 }

  /** The sum of ds[i] * 10000^(e - i) over the first `k` digits. */
  function Sum(ds: seq<nat>, k: nat, e: int): nat
    requires k <= |ds| && k - 1 <= e
  {
    if k == 0 then 0 else Sum(ds, k - 1, e) + ds[k - 1] * Pow10(4 * (e - (k - 1)))
  }

  /**
   The magnitude the wire format defines, the sum of digit[i] * 10000^(weight - i),
   multiplied by 10000^n so that every term is whole.
  */
  function Magnitude(ds: seq<nat>, weight: int, n: nat): nat
    requires |ds| - 1 <= weight + n
  {
    Sum(ds, |ds|, weight + n)
  }

  function LimbSum(ds: seq<nat>, lo: int, count: nat): nat
  {
    if count == 0 then 0 else 10000 * LimbSum(ds, lo, count - 1) + DigitAt(ds, lo + count - 1)
  }

  lemma Pow4()
    ensures Pow10(4) == 10000
  {
    assert Pow10(2) == 100;
  }

  lemma {:induction false} LimbsValue(ds: seq<nat>, lo: int, count: nat)
    requires BaseDigits(ds)
    ensures DecValue(Limbs(ds, lo, count)) == LimbSum(ds, lo, count)
  {
    if count > 0 {
      hide DecValue, Pad;
      LimbsValue(ds, lo, count - 1);
      var d := DigitAt(ds, lo + count - 1);
      Pow4();
      PadValue(d, 4);
      DecValueSplit(Limbs(ds, lo, count - 1), Pad(d, 4));
    } else {
      assert Limbs(ds, lo, 0) == [];
    }
  }

  lemma Pow10Four(m: nat)
    ensures Pow10(m + 4) == 10000 * Pow10(m)
  {
    assert Pow10(m + 2) == 100 * Pow10(m);
  }

  lemma MulSwap(d: nat, p: nat)
    ensures d * (10000 * p) == 10000 * (d * p)
  {
  }

  lemma {:induction false} SumShift(ds: seq<nat>, k: nat, e: int)
    requires k <= |ds| && k - 1 <= e
    ensures Sum(ds, k, e + 1) == 10000 * Sum(ds, k, e)
  {
    if k > 0 {
      hide Pow10;
      SumShift(ds, k - 1, e);
      var m := 4 * (e - (k - 1));
      Pow10Four(m);
      MulSwap(ds[k - 1], Pow10(m));
      assert 4 * (e + 1 - (k - 1)) == m + 4;
    }
  }

  /** Reading limbs left to right evaluates the sum. */
  lemma {:induction false} LimbSumIsSum(ds: seq<nat>, lo: int, count: nat)
    requires lo <= 0
    ensures var e := lo + count - 1;
            var k := if e + 1 < 0 then 0 else if e + 1 < |ds| then e + 1 else |ds|;
            LimbSum(ds, lo, count) == (if k == 0 then 0 else Sum(ds, k, e))
  {
    if count > 0 {
      LimbSumIsSum(ds, lo, count - 1);
      var e := lo + count - 1;
      var k := if e < 0 then 0 else if e < |ds| then e else |ds|;
      if k > 0 {
        SumShift(ds, k, e - 1);
      }
      if 0 <= e < |ds| {
        assert Sum(ds, e + 1, e) == Sum(ds, e, e) + ds[e] * Pow10(0);
      }
    }
  }

  lemma PadDigits(v: nat)
    ensures Pad(v, 4) == [ZERO + v / 1000 % 10, ZERO + v / 100 % 10, ZERO + v / 10 % 10, ZERO + v % 10]
  {
    assert v / 10 / 10 == v / 100 && v / 100 / 10 == v / 1000;
    assert Pad(v / 1000, 0) == [];
    assert Pad(v / 1000, 1) == [ZERO + v / 1000 % 10];
    assert Pad(v / 100, 2) == Pad(v / 1000, 1) + [ZERO + v / 100 % 10];
    assert Pad(v / 10, 3) == Pad(v / 100, 2) + [ZERO + v / 10 % 10];
  }

  lemma {:induction false} LimbsAt(ds: seq<nat>, weight: int, count: nat, p: nat)
    requires p < 4 * count
    ensures Limbs(ds, weight + 1, count)[p] == FracDigit(ds, weight, p)
  {
    if p < 4 * (count - 1) {
      LimbsAt(ds, weight, count - 1, p);
    } else {
      PadDigits(DigitAt(ds, weight + count));
      assert p / 4 == count - 1;
    }
  }

  lemma {:induction false} LimbsSplit(ds: seq<nat>, lo: int, a: nat, b: nat)
    ensures Limbs(ds, lo, a + b) == Limbs(ds, lo, a) + Limbs(ds, lo + a, b)
  {
    if b > 0 {
      LimbsSplit(ds, lo, a, b - 1);
    }
  }

  lemma PrefixValue(s: bytes, k: nat)
    requires k <= |s| && AllDigits(s)
    ensures AllDigits(s[..k]) && DecValue(s[..k]) == DecValue(s) / Pow10(|s| - k)
  {
    hide DecValue;
    assert s == s[..k] + s[k..];
    DecValueSplit(s[..k], s[k..]);
    DecValueBound(s[k..]);
    DivIs(DecValue(s), Pow10(|s| - k), DecValue(s[..k]), DecValue(s[k..]));
  }

  /** Dropping the padding of the first limb does not change the number. */
  lemma IntDigitsValue(ds: seq<nat>, weight: int, f: bytes)
    requires BaseDigits(ds) && AllDigits(f)
    ensures var padded := if weight < 0 then [] else Limbs(ds, 0, weight + 1);
            AllDigits(IntDigits(ds, weight) + f) && AllDigits(padded + f)
            && DecValue(IntDigits(ds, weight) + f) == DecValue(padded + f)
  {
    hide DecValue, Pad, NatText;
    if weight < 0 {
      DecValueSplit([ZERO], f);
      DecValueSplit([], f);
      SmallValues();
    } else {
      var d := DigitAt(ds, 0);
      var t := Limbs(ds, 1, weight);
      LimbsSplit(ds, 0, 1, weight);
      assert Limbs(ds, 0, 1) == Pad(d, 4) by { assert Limbs(ds, 0, 0) == []; }
      Pow4();
      PadValue(d, 4);
      NatTextValue(d);
      DecValueSplit(NatText(d), t + f);
      DecValueSplit(Pad(d, 4), t + f);
      assert (NatText(d) + t) + f == NatText(d) + (t + f);
      assert (Pad(d, 4) + t) + f == Pad(d, 4) + (t + f);
    }
  }

  lemma SmallValues()
    ensures DecValue([]) == 0 && DecValue([ZERO]) == 0
  {
    assert [ZERO][..0] == [];
  }

  /**
   The digits written before and after the point are the decimal digits of the magnitude,
   cut off (never rounded) after `dscale` places, for every weight and scale.
  */
  lemma DigitsDenote(ds: seq<nat>, weight: int, dscale: nat, n: nat)
    requires BaseDigits(ds) && ds != []
    requires |ds| - 1 <= weight + n && dscale <= 4 * n
    ensures var s := IntDigits(ds, weight) + FracDigits(ds, weight, dscale);
            AllDigits(s) && DecValue(s) == Magnitude(ds, weight, n) / Pow10(4 * n - dscale)
  {
    hide DecValue, Limbs, FracDigits, Sum, IntDigits, Pow10;
    var f := FracDigits(ds, weight, dscale);
    IntDigitsValue(ds, weight, f);
    var lo, count := if weight < 0 then weight + 1 else 0, if weight < 0 then n else weight + 1 + n;
    var padded := if weight < 0 then [] else Limbs(ds, 0, weight + 1);
    var all := Limbs(ds, lo, count);
    assert all == padded + Limbs(ds, weight + 1, n) by {
      if weight >= 0 {
        LimbsSplit(ds, 0, weight + 1, n);
      }
    }
    FracIsPrefix(ds, weight, dscale, n);
    assert padded + f == all[..|padded| + dscale];
    PrefixValue(all, |padded| + dscale);
    LimbsValue(ds, lo, count);
    LimbSumIsSum(ds, lo, count);
  }

  /** The fraction digits are the first digits of the limbs behind the point. */
  lemma FracIsPrefix(ds: seq<nat>, weight: int, dscale: nat, n: nat)
    requires BaseDigits(ds) && dscale <= 4 * n
    ensures |Limbs(ds, weight + 1, n)| == 4 * n
    ensures FracDigits(ds, weight, dscale) == Limbs(ds, weight + 1, n)[..dscale]
  {
    hide Limbs, Pad, FracDigit;
    var f := FracDigits(ds, weight, dscale);
    forall p: nat | p < dscale ensures f[p] == Limbs(ds, weight + 1, n)[p] {
      LimbsAt(ds, weight, n, p);
    }
  }

  // ---- Reading the text back --------------------------------------------------------

  /** Digits with an optional fraction: (all digits as one integer, digits after the point, rest). */
  function ReadUnsigned(t: bytes): Option<(int, int, bytes)>
  {
    var k := DigitRun(t);
    if k == 0 then None
    else if k < |t| && t[k] == DOT then
      var m := DigitRun(t[k + 1..]);
      if m == 0 then None
      else
        DecValueSplit(t[..k], t[k + 1..][..m]);
        Some((DecValue(t[..k] + t[k + 1..][..m]), m, t[k + 1..][m..]))
    else Some((DecValue(t[..k]), 0, t[k..]))
  }

  /** A decimal number: (negative, all its digits as one integer, digits after the point, rest). */
  function ReadDecimal(s: bytes): Option<(bool, int, int, bytes)>
  {
    if s != [] && s[0] == MINUS then
      var (v, scale, rest) :- ReadUnsigned(s[1..]);
      Some((true, v, scale, rest))
    else
      var (v, scale, rest) :- ReadUnsigned(s);
      Some((false, v, scale, rest))
  }

  lemma ReadFractionOf(a: bytes, f: bytes, rest: bytes)
    requires |a| > 0 && |f| > 0 && AllDigits(a) && AllDigits(f) && AllDigits(a + f)
    requires rest == [] || (!IsDigit(rest[0]) && rest[0] != DOT)
    ensures ReadUnsigned(a + ([DOT] + (f + rest))) == Some((DecValue(a + f), |f|, rest))
  {
    hide DecValue, DigitRun, Pow10, AllDigits;
    var tail := [DOT] + (f + rest);
    var t := a + tail;
    DigitRunOf(a, tail);
    DigitRunOf(f, rest);
    assert t[|a|] == DOT && t[|a| + 1..] == f + rest && t[..|a|] == a;
    assert (f + rest)[..|f|] == f && (f + rest)[|f|..] == rest;
  }

  lemma ReadUnsignedOf(a: bytes, f: bytes, rest: bytes)
    requires |a| > 0 && AllDigits(a) && AllDigits(f) && AllDigits(a + f)
    requires rest == [] || (!IsDigit(rest[0]) && rest[0] != DOT)
    ensures ReadUnsigned(a + ((if f == [] then [] else [DOT] + f) + rest)) == Some((DecValue(a + f), |f|, rest))
  {
    hide DecValue, DigitRun, Pow10, AllDigits;
    if f == [] {
      assert [] + rest == rest && a + f == a;
      DigitRunOf(a, rest);
    } else {
      ReadFractionOf(a, f, rest);
      assert ([DOT] + f) + rest == [DOT] + (f + rest);
    }
  }

  lemma ReadDecimalOf(neg: bool, a: bytes, f: bytes, rest: bytes)
    requires |a| > 0 && AllDigits(a) && AllDigits(f) && AllDigits(a + f)
    requires rest == [] || (!IsDigit(rest[0]) && rest[0] != DOT)
    ensures ReadDecimal((if neg then [MINUS] else []) + (a + ((if f == [] then [] else [DOT] + f) + rest)))
         == Some((neg, DecValue(a + f), |f|, rest))
  {
    hide DecValue, ReadUnsigned;
    var t := a + ((if f == [] then [] else [DOT] + f) + rest);
    ReadUnsignedOf(a, f, rest);
    if neg {
      assert ([MINUS] + t)[1..] == t;
    } else {
      assert [] + t == t && t[0] == a[0];
    }
  }

  /**
   The law of the numeric decoder: a reader of the text sees the sign, exactly `dscale`
   places after the point, and the magnitude truncated at those places.
  */
  lemma NumericDenotes(neg: bool, ds: seq<nat>, weight: int, dscale: nat, n: nat, rest: bytes)
    requires BaseDigits(ds)
    requires |ds| - 1 <= weight + n && dscale <= 4 * n
    requires rest == [] || (!IsDigit(rest[0]) && rest[0] != DOT)
    ensures ReadDecimal(DecimalText(neg, ds, weight, dscale) + rest)
         == Some((neg && ds != [], Magnitude(ds, weight, n) / Pow10(4 * n - dscale), dscale, rest))
  {
    hide DecValue, FracDigit, ReadDecimal, IntDigits;
    var f := FracDigits(ds, weight, dscale);
    var a := if ds == [] then [ZERO] else IntDigits(ds, weight);
    var sign: bytes := if neg && ds != [] then [MINUS] else [];
    assert DecimalText(neg, ds, weight, dscale) + rest == sign + (a + ((if f == [] then [] else [DOT] + f) + rest));
    if ds == [] {
      ZerosDenote(weight, dscale);
      DivIs(0, Pow10(4 * n - dscale), 0, 0);
    } else {
      DigitsDenote(ds, weight, dscale, n);
    }
    ReadDecimalOf(neg && ds != [], a, f, rest);
  }

  lemma {:induction false} ZerosDenote(weight: int, dscale: nat)
    ensures AllDigits([ZERO] + FracDigits([], weight, dscale))
    ensures DecValue([ZERO] + FracDigits([], weight, dscale)) == 0
  {
    var s := [ZERO] + FracDigits([], weight, dscale);
    if dscale == 0 {
      SmallValues();
      assert s == [ZERO];
    } else {
      ZerosDenote(weight, dscale - 1);
      ZeroFracDigit(weight, dscale - 1);
      assert s[..|s| - 1] == [ZERO] + FracDigits([], weight, dscale - 1);
    }
  }

  /** JSON forbids superfluous leading zeros; they appear exactly when the first of several limbs is zero. */
  lemma LeadingZeroIff(ds: seq<nat>, weight: int)
    requires ds != []
    ensures var s := IntDigits(ds, weight);
            |s| > 1 && s[0] == ZERO <==> weight > 0 && ds[0] == 0
  {
    if weight >= 0 {
      NatTextLead(ds[0]);
    }
  }

  lemma {:induction false} NatTextLead(v: nat)
    ensures NatText(v)[0] == ZERO <==> v == 0
    ensures v == 0 ==> |NatText(v)| == 1
  {
    if v >= 10 {
      NatTextLead(v / 10);
    }
  }
}
