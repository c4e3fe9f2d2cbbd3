/**
 Bytes, big-endian integers and decimal text: the vocabulary every other module
 of this project is written in.
*/
module Bytes {
  type byte = b: int | 0 <= b < 256
  type bytes = seq<byte>

  datatype Option<+T> = None | Some(value: T) {
    predicate IsFailure() { None? }
    function PropagateFailure<U>(): Option<U> requires None? { None }
    function Extract(): T requires Some? { value }
  }

  // ---- Machine integers -------------------------------------------------

  const TWO_31: int := 0x8000_0000
  const TWO_32: int := 0x1_0000_0000
  const TWO_63: int := 0x8000_0000_0000_0000
  const TWO_64: int := 0x1_0000_0000_0000_0000

  predicate IsInt16(v: int) { -0x8000 <= v < 0x8000 }
  predicate IsInt32(v: int) { -TWO_31 <= v < TWO_31 }
  predicate IsInt64(v: int) { -TWO_63 <= v < TWO_63 }

  /** Go's `/` on signed integers: truncation toward zero. */
  function TruncDiv(a: int, b: int): int
    requires b > 0
  {
    if a >= 0 then a / b else -((-a) / b)
  }

  /** Go's `%` on signed integers: the remainder has the sign of the dividend. */
  function TruncMod(a: int, b: int): int
    requires b > 0
  {
    a - TruncDiv(a, b) * b
  }

  /** The two's complement reading of an unsigned number below `modulus`. */
  function Signed(u: nat, modulus: nat): int
    requires modulus > 0 && u < modulus
  {
    if u < modulus - u then u else u - modulus
  }

  // ---- Division ----------------------------------------------------------

  lemma MulMono(n: int, a: int, b: int)
    requires n >= 0 && a <= b
    ensures n * a <= n * b
  {
  }

  lemma DivIs(a: int, n: int, q: int, r: int)
    requires n > 0 && a == n * q + r && 0 <= r < n
    ensures a / n == q && a % n == r
  {
    var x := a / n;
    assert a == n * x + a % n;
    if x > q {
      MulMono(n, q + 1, x);
    } else if x < q {
      MulMono(n, x + 1, q);
    }
  }

  // ---- Big-endian byte strings -------------------------------------------

  function Pow256(w: nat): (p: nat)
    ensures p > 0
  {
    if w == 0 then 1 else 256 * Pow256(w - 1)
  }

  /** The low `w` bytes of `n`, most significant first. */
  function ToBE(n: nat, w: nat): (s: bytes)
    ensures |s| == w
  {
    if w == 0 then [] else ToBE(n / 256, w - 1) + [n % 256]
  }

  function FromBE(s: bytes): nat
  {
    if s == [] then 0 else 256 * FromBE(s[..|s| - 1]) + s[|s| - 1]
  }

  lemma {:induction false} FromToBE(n: nat, w: nat)
    requires n < Pow256(w)
    ensures FromBE(ToBE(n, w)) == n
  {
    if w > 0 {
      FromToBE(n / 256, w - 1);
      assert ToBE(n, w)[..w - 1] == ToBE(n / 256, w - 1);
    }
  }

  lemma {:induction false} ToFromBE(s: bytes)
    ensures ToBE(FromBE(s), |s|) == s
  {
    if s != [] {
      ToFromBE(s[..|s| - 1]);
      assert FromBE(s) / 256 == FromBE(s[..|s| - 1]);
    }
  }

  lemma {:induction false} FromBEBound(s: bytes)
    ensures FromBE(s) < Pow256(|s|)
  {
    if s != [] {
      FromBEBound(s[..|s| - 1]);
    }
  }

  lemma Pow256Values()
    ensures Pow256(1) == 0x100 && Pow256(2) == 0x1_0000
    ensures Pow256(4) == TWO_32 && Pow256(8) == TWO_64
  {
    assert Pow256(1) == 0x100;
    assert Pow256(2) == 0x1_0000;
    assert Pow256(3) == 0x100_0000;
    assert Pow256(4) == TWO_32;
    assert Pow256(5) == 0x100_0000_0000;
    assert Pow256(6) == 0x1_0000_0000_0000;
    assert Pow256(7) == 0x100_0000_0000_0000;
    assert Pow256(8) == TWO_64;
  }

  function ReadU16(s: bytes): (n: nat)
    requires |s| == 2
    ensures n < 0x1_0000
  {
    FromBEBound(s);
    Pow256Values();
    FromBE(s)
  }

  function ReadU32(s: bytes): (n: nat)
    requires |s| == 4
    ensures n < TWO_32
  {
    FromBEBound(s);
    Pow256Values();
    FromBE(s)
  }

  function ReadU64(s: bytes): (n: nat)
    requires |s| == 8
    ensures n < TWO_64
  {
    FromBEBound(s);
    Pow256Values();
    FromBE(s)
  }

  function ReadI16(s: bytes): (v: int)
    requires |s| == 2
    ensures IsInt16(v)
  {
    Signed(ReadU16(s), 0x1_0000)
  }

  function ReadI32(s: bytes): (v: int)
    requires |s| == 4
    ensures IsInt32(v)
  {
    Signed(ReadU32(s), TWO_32)
  }

  function ReadI64(s: bytes): (v: int)
    requires |s| == 8
    ensures IsInt64(v)
  {
    Signed(ReadU64(s), TWO_64)
  }

  /** `byte(v>>8), byte(v)`: the two's complement bytes of a 16-bit integer. */
  function I16(v: int): (s: bytes)
    ensures |s| == 2
  {
    ToBE(v % 0x1_0000, 2)
  }

  function I32(v: int): (s: bytes)
    ensures |s| == 4
  {
    ToBE(v % TWO_32, 4)
  }

  function I64(v: int): (s: bytes)
    ensures |s| == 8
  {
    ToBE(v % TWO_64, 8)
  }

  lemma ReadI16RoundTrip(v: int)
    requires IsInt16(v)
    ensures ReadI16(I16(v)) == v
  {
    Pow256Values();
    FromToBE(v % 0x1_0000, 2);
  }

  lemma ReadI32RoundTrip(v: int)
    requires IsInt32(v)
    ensures ReadI32(I32(v)) == v
  {
    Pow256Values();
    FromToBE(v % TWO_32, 4);
  }

  /** Two and four bytes are the encoding of what they are read as. */
  lemma I16OfRead(s: bytes)
    requires |s| == 2
    ensures I16(ReadI16(s)) == s
  {
    Pow256Values();
    FromBEBound(s);
    ToFromBE(s);
    assert ReadI16(s) % 0x1_0000 == ReadU16(s);
  }

  lemma I32OfRead(s: bytes)
    requires |s| == 4
    ensures I32(ReadI32(s)) == s
  {
    Pow256Values();
    FromBEBound(s);
    ToFromBE(s);
    assert ReadI32(s) % TWO_32 == ReadU32(s);
  }

  lemma ReadI64RoundTrip(v: int)
    requires IsInt64(v)
    ensures ReadI64(I64(v)) == v
  {
    Pow256Values();
    FromToBE(v % TWO_64, 8);
  }

  lemma ReadU32RoundTrip(n: nat)
    requires n < TWO_32
    ensures ReadU32(ToBE(n, 4)) == n
  {
    Pow256Values();
    FromToBE(n, 4);
  }

  // ---- Decimal text -------------------------------------------------------

  const ZERO: byte := 0x30
  const MINUS: byte := 0x2D

  predicate IsDigit(b: byte) { ZERO <= b < ZERO + 10 }

  predicate AllDigits(s: bytes) { forall i :: 0 <= i < |s| ==> IsDigit(s[i]) }

  /** The number a decimal digit string denotes (leading zeros allowed). */
  function DecValue(s: bytes): nat
    requires AllDigits(s)
  {
    if s == [] then 0 else 10 * DecValue(s[..|s| - 1]) + (s[|s| - 1] - ZERO)
  }

  /** The last `w` decimal digits of `n`, most significant first. */
  function Pad(n: nat, w: nat): (s: bytes)
    ensures |s| == w && AllDigits(s)
  {
    if w == 0 then [] else Pad(n / 10, w - 1) + [ZERO + n % 10]
  }

  /** strconv.AppendInt in base 10 for a non-negative number. */
  function NatText(n: nat): (s: bytes)
    ensures |s| > 0 && AllDigits(s)
  {
    if n < 10 then [ZERO + n] else NatText(n / 10) + [ZERO + n % 10]
  }

  /** strconv.AppendInt in base 10. */
  function IntText(v: int): (s: bytes)
    ensures |s| > 0
  {
    if v < 0 then [MINUS] + NatText(-v) else NatText(v)
  }

  function Pow10(k: nat): (p: nat)
    ensures p > 0
  {
    if k == 0 then 1 else 10 * Pow10(k - 1)
  }

  lemma {:induction false} NatTextValue(n: nat)
    ensures DecValue(NatText(n)) == n
  {
    var s := NatText(n);
    if n >= 10 {
      NatTextValue(n / 10);
      assert s[..|s| - 1] == NatText(n / 10);
    } else {
      assert s[..0] == [];
    }
  }

  lemma {:induction false} PadValue(n: nat, w: nat)
    requires n < Pow10(w)
    ensures DecValue(Pad(n, w)) == n
  {
    if w > 0 {
      PadValue(n / 10, w - 1);
      assert Pad(n, w)[..w - 1] == Pad(n / 10, w - 1);
    }
  }

  /** How many leading bytes of `s` are digits. */
  function DigitRun(s: bytes): (k: nat)
    ensures k <= |s| && AllDigits(s[..k])
    ensures k < |s| ==> !IsDigit(s[k])
  {
    if s == [] || !IsDigit(s[0]) then 0
    else
      var k := DigitRun(s[1..]);
      assert s[..k + 1] == [s[0]] + s[1..][..k];
      k + 1
  }

  lemma {:induction false} DigitRunOf(d: bytes, rest: bytes)
    requires AllDigits(d)
    requires rest == [] || !IsDigit(rest[0])
    ensures DigitRun(d + rest) == |d| && (d + rest)[..|d|] == d && (d + rest)[|d|..] == rest
  {
    if d == [] {
      assert d + rest == rest;
    } else {
      assert (d + rest)[1..] == d[1..] + rest;
      DigitRunOf(d[1..], rest);
    }
  }

  /** Greedy reader of a digit string: (value, remainder). */
  function ReadNat(s: bytes): (r: Option<(int, bytes)>)
    ensures r.Some? ==> |r.value.1| < |s| && r.value.0 >= 0
  {
    var k := DigitRun(s);
    if k == 0 then None else Some((DecValue(s[..k]), s[k..]))
  }

  lemma ReadNatOf(d: bytes, rest: bytes)
    requires |d| > 0 && AllDigits(d)
    requires rest == [] || !IsDigit(rest[0])
    ensures ReadNat(d + rest) == Some((DecValue(d), rest))
  {
    DigitRunOf(d, rest);
  }

  /** Greedy reader of an optionally signed integer: (value, was there a '-', remainder). */
  function ReadInt(s: bytes): (r: Option<(int, bool, bytes)>)
    ensures r.Some? ==> |r.value.2| < |s|
  {
    if s != [] && s[0] == MINUS then
      match ReadNat(s[1..])
      case None => None
      case Some(p) => Some((0 - p.0, true, p.1))
    else
      match ReadNat(s)
      case None => None
      case Some(p) => Some((p.0, false, p.1))
  }

  lemma ReadIntPlain(t: bytes)
    requires t != [] && IsDigit(t[0]) && ReadNat(t).Some?
    ensures ReadInt(t) == Some((ReadNat(t).value.0, false, ReadNat(t).value.1))
  {
  }

  lemma ReadIntMinus(t: bytes)
    requires ReadNat(t).Some?
    ensures ReadInt([MINUS] + t) == Some((0 - ReadNat(t).value.0, true, ReadNat(t).value.1))
  {
    var s: bytes := [MINUS] + t;
    assert s[1..] == t;
  }

  lemma FirstDigit(s: bytes)
    requires |s| > 0 && AllDigits(s)
    ensures IsDigit(s[0])
  {
  }

  lemma ReadIntText(v: int, rest: bytes)
    requires rest == [] || !IsDigit(rest[0])
    ensures ReadInt(IntText(v) + rest) == Some((v, v < 0, rest))
  {
    hide NatText, ReadNat, ReadInt, DecValue, AllDigits;
    var n := if v < 0 then -v else v;
    NatTextValue(n);
    ReadNatOf(NatText(n), rest);
    if v < 0 {
      ReadIntMinus(NatText(n) + rest);
      assert IntText(v) + rest == [MINUS] + (NatText(n) + rest);
    } else {
      assert IsDigit(NatText(n)[0]) by { FirstDigit(NatText(n)); }
      assert (NatText(n) + rest)[0] == NatText(n)[0];
      ReadIntPlain(NatText(n) + rest);
    }
  }

  /** Leading digits weigh more: splitting a digit string splits its value. */
  lemma {:induction false} DecValueSplit(a: bytes, b: bytes)
    requires AllDigits(a) && AllDigits(b)
    ensures AllDigits(a + b)
    ensures DecValue(a + b) == DecValue(a) * Pow10(|b|) + DecValue(b)
  {
    if b == [] {
      assert a + b == a;
    } else {
      var b' := b[..|b| - 1];
      DecValueSplit(a, b');
      DecValueMore(a, b);
      TimesTen(DecValue(a), |b'|);
      hide DecValue, Pow10, AllDigits;
    }
  }

  lemma TimesTen(v: nat, k: nat)
    ensures v * Pow10(k + 1) == 10 * (v * Pow10(k))
  {
    var p := Pow10(k);
    assert v * (10 * p) == 10 * (v * p);
  }

  lemma DecValueMore(a: bytes, b: bytes)
    requires AllDigits(a) && AllDigits(b) && b != []
    ensures AllDigits(a + b[..|b| - 1]) && AllDigits(a + b) && AllDigits(b[..|b| - 1])
    ensures DecValue(a + b) == 10 * DecValue(a + b[..|b| - 1]) + (b[|b| - 1] - ZERO)
    ensures DecValue(b) == 10 * DecValue(b[..|b| - 1]) + (b[|b| - 1] - ZERO)
  {
    assert (a + b)[..|a + b| - 1] == a + b[..|b| - 1];
  }

  lemma {:induction false} DecValueBound(s: bytes)
    requires AllDigits(s)
    ensures DecValue(s) < Pow10(|s|)
  {
    if s != [] {
      DecValueBound(s[..|s| - 1]);
    }
  }

  // ---- Small readers ------------------------------------------------------

  /** The rest of `s` after the byte `b`. */
  function Expect(s: bytes, b: byte): Option<bytes>
  {
    if s != [] && s[0] == b then Some(s[1..]) else None
  }

  /** A number of exactly `k` decimal digits. */
  function ReadFixed(s: bytes, k: nat): Option<(int, bytes)>
  {
    if |s| >= k && AllDigits(s[..k]) then Some((DecValue(s[..k]), s[k..])) else None
  }

  lemma ExpectOf(b: byte, rest: bytes)
    ensures Expect([b] + rest, b) == Some(rest)
  {
    assert ([b] + rest)[1..] == rest;
  }

  lemma ReadFixedOf(n: nat, k: nat, rest: bytes)
    requires n < Pow10(k)
    ensures ReadFixed(Pad(n, k) + rest, k) == Some((n, rest))
  {
    PadValue(n, k);
    assert (Pad(n, k) + rest)[..k] == Pad(n, k) && (Pad(n, k) + rest)[k..] == rest;
  }

  lemma Assoc(a: bytes, b: bytes, c: bytes)
    ensures (a + b) + c == a + (b + c)
  {
  }

  lemma SplitLast(a: bytes, b: bytes)
    requires b != []
    ensures b == b[..|b| - 1] + [b[|b| - 1]] && a + b == (a + b[..|b| - 1]) + [b[|b| - 1]]
  {
  }

  /** The bytes of an ASCII text. */
  function Ascii(s: string): (b: bytes)
    ensures |b| == |s|
  {
    seq(|s|, i requires 0 <= i < |s| => if s[i] as int < 128 then s[i] as int else 0)
  }
}
