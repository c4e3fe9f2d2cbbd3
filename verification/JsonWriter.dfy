/**
 JSON string escaping (internal/jsonwriter): the scalar loop, the eight-bytes-at-a-time
 loop, and a reader of JSON strings by the grammar of section 7 of RFC 8259.
*/
module JsonWriter {
  import opened Bytes

  const QUOTE: byte := 0x22
  const SLASH: byte := 0x5C
  const LOWER_U: byte := 0x75

  /** escapeFlag: the bytes that may not stand unescaped inside a JSON string. */
  predicate NeedsEscape(c: byte) { c < 0x20 || c == QUOTE || c == SLASH }

  function Hex(n: int): byte
    requires 0 <= n < 16
  {
    if n < 10 then 0x30 + n else 0x61 + (n - 10)
  }

  function EscapeOf(c: byte): bytes
  {
    if c == QUOTE then [SLASH, QUOTE]
    else if c == SLASH then [SLASH, SLASH]
    else if c == 0x0A then [SLASH, 0x6E]
    else if c == 0x0D then [SLASH, 0x72]
    else if c == 0x09 then [SLASH, 0x74]
    else if c == 0x08 then [SLASH, 0x62]
    else if c == 0x0C then [SLASH, 0x66]
    else [SLASH, LOWER_U, 0x30, 0x30, Hex(c / 16), Hex(c % 16)]
  }

  /** The body of the JSON string for `s`, byte by byte. */
  function EscapeBody(s: bytes): bytes
  {
    if s == [] then []
    else EscapeBody(s[..|s| - 1]) + (var c := s[|s| - 1]; if NeedsEscape(c) then EscapeOf(c) else [c])
  }

  /** One more byte. */
  lemma EscapeBodyMore(a: bytes, c: byte)
    ensures EscapeBody(a + [c]) == EscapeBody(a) + (if NeedsEscape(c) then EscapeOf(c) else [c])
  {
    hide NeedsEscape, EscapeOf;
    assert (a + [c])[..|a|] == a;
  }

  lemma {:induction false} EscapeBodyConcat(a: bytes, b: bytes)
    ensures EscapeBody(a + b) == EscapeBody(a) + EscapeBody(b)
  {
    if b == [] {
      assert a + b == a;
    } else {
      hide NeedsEscape, EscapeOf, EscapeBody;
      var n := |b| - 1;
      EscapeBodyConcat(a, b[..n]);
      SplitLast(a, b);
      EscapeBodyMore(a + b[..n], b[n]);
      EscapeBodyMore(b[..n], b[n]);
      Assoc(EscapeBody(a), EscapeBody(b[..n]), if NeedsEscape(b[n]) then EscapeOf(b[n]) else [b[n]]);
    }
  }

  predicate Plain(s: bytes, lo: nat, hi: nat)
    requires lo <= hi <= |s|
  {
    forall k :: lo <= k < hi ==> !NeedsEscape(s[k])
  }

  lemma {:induction false} EscapePlain(s: bytes)
    requires Plain(s, 0, |s|)
    ensures EscapeBody(s) == s
  {
    if s != [] {
      EscapePlain(s[..|s| - 1]);
    }
  }

  /** Text is pushed in spans: everything up to `start` is out, everything up to `i` is plain. */
  lemma EscapeSpan(s: bytes, start: nat, i: nat)
    requires start <= i <= |s| && Plain(s, start, i)
    ensures EscapeBody(s[..i]) == EscapeBody(s[..start]) + s[start..i]
    ensures i < |s| && NeedsEscape(s[i]) ==> EscapeBody(s[..i + 1]) == EscapeBody(s[..i]) + EscapeOf(s[i])
  {
    assert s[..i] == s[..start] + s[start..i];
    EscapeBodyConcat(s[..start], s[start..i]);
    EscapePlain(s[start..i]);
    if i < |s| {
      assert s[..i + 1][..i] == s[..i];
    }
  }

  lemma NothingEscaped(s: bytes)
    ensures EscapeBody(s[..0]) == []
  {
  }

  /** The reference loop: flush the span before each escapable byte, then its escape. */
  method AppendStringBodyBytes(dst: bytes, s: bytes) returns (out: bytes)
    ensures out == dst + EscapeBody(s)
  {
    hide NeedsEscape, EscapeOf, EscapeBody;
    out := dst;
    var start := 0;
    NothingEscaped(s);
    for i := 0 to |s|
      invariant start <= i
      invariant Plain(s, start, i)
      invariant out == dst + EscapeBody(s[..start])
    {
      EscapeSpan(s, start, i);
      if NeedsEscape(s[i]) {
        if i > start {
          out := out + s[start..i];
        }
        out := out + EscapeOf(s[i]);
        start := i + 1;
      }
    }
    EscapeSpan(s, start, |s|);
    assert s[..|s|] == s;
    if start < |s| {
      out := out + s[start..];
    }
  }

  // ---- SWAR -----------------------------------------------------------------

  const SWAR_ONES: bv64 := 0x0101010101010101
  const SWAR_HIGH: bv64 := 0x8080808080808080
  const SWAR_QUOTE: bv64 := 0x2222222222222222
  const SWAR_SLASH: bv64 := 0x5C5C5C5C5C5C5C5C
  const SWAR_CTRL: bv64 := 0x2020202020202020

  function SwarHasEscapable(x: bv64): bv64
  {
    var lowCtrl := (x - SWAR_CTRL) & !x & SWAR_HIGH;
    var quote := ((x ^ SWAR_QUOTE) - SWAR_ONES) & !(x ^ SWAR_QUOTE) & SWAR_HIGH;
    var slash := ((x ^ SWAR_SLASH) - SWAR_ONES) & !(x ^ SWAR_SLASH) & SWAR_HIGH;
    lowCtrl | quote | slash
  }

  predicate BadLane(b: bv64) { b < 0x20 || b == 0x22 || b == 0x5C }

  /** The test is exact: borrows between lanes can neither hide nor invent an escapable byte. */
  lemma SwarExact(x: bv64)
    ensures SwarHasEscapable(x) != 0 <==>
              || BadLane(x & 0xFF) || BadLane((x >> 8) & 0xFF)
              || BadLane((x >> 16) & 0xFF) || BadLane((x >> 24) & 0xFF)
              || BadLane((x >> 32) & 0xFF) || BadLane((x >> 40) & 0xFF)
              || BadLane((x >> 48) & 0xFF) || BadLane((x >> 56) & 0xFF)
  {
  }

  function LittleEndian(b0: bv8, b1: bv8, b2: bv8, b3: bv8, b4: bv8, b5: bv8, b6: bv8, b7: bv8): bv64
  {
    (b0 as bv64) | ((b1 as bv64) << 8) | ((b2 as bv64) << 16) | ((b3 as bv64) << 24)
    | ((b4 as bv64) << 32) | ((b5 as bv64) << 40) | ((b6 as bv64) << 48) | ((b7 as bv64) << 56)
  }

  predicate Bad(b: bv8) { b < 0x20 || b == 0x22 || b == 0x5C }

  lemma SwarOnBytes(b0: bv8, b1: bv8, b2: bv8, b3: bv8, b4: bv8, b5: bv8, b6: bv8, b7: bv8)
    ensures SwarHasEscapable(LittleEndian(b0, b1, b2, b3, b4, b5, b6, b7)) != 0 <==>
            Bad(b0) || Bad(b1) || Bad(b2) || Bad(b3) || Bad(b4) || Bad(b5) || Bad(b6) || Bad(b7)
  {
  }

  lemma ControlByte(c: byte)
    ensures (c as bv8) < 0x20 <==> c < 0x20
  {
  }

  lemma SameByte(c: byte)
    ensures (c as bv8) == 0x22 <==> c == 0x22
    ensures (c as bv8) == 0x5C <==> c == 0x5C
  {
  }

  lemma BadByte(c: byte)
    ensures Bad(c as bv8) <==> NeedsEscape(c)
  {
    ControlByte(c);
    SameByte(c);
  }

  /** The eight bytes at `i` as one little-endian word. */
  function Word(s: bytes, i: nat): bv64
    requires i + 8 <= |s|
  {
    LittleEndian(s[i] as bv8, s[i + 1] as bv8, s[i + 2] as bv8, s[i + 3] as bv8,
                 s[i + 4] as bv8, s[i + 5] as bv8, s[i + 6] as bv8, s[i + 7] as bv8)
  }

  predicate BadAt(s: bytes, k: nat)
    requires k < |s|
  {
    Bad(s[k] as bv8)
  }

  lemma WordTest(s: bytes, i: nat)
    requires i + 8 <= |s|
    ensures SwarHasEscapable(Word(s, i)) != 0 <==>
            || BadAt(s, i) || BadAt(s, i + 1) || BadAt(s, i + 2) || BadAt(s, i + 3)
            || BadAt(s, i + 4) || BadAt(s, i + 5) || BadAt(s, i + 6) || BadAt(s, i + 7)
  {
    hide SwarHasEscapable, LittleEndian, Bad;
    SwarOnBytes(s[i] as bv8, s[i + 1] as bv8, s[i + 2] as bv8, s[i + 3] as bv8,
                s[i + 4] as bv8, s[i + 5] as bv8, s[i + 6] as bv8, s[i + 7] as bv8);
  }

  lemma WordPlain(s: bytes, i: nat)
    requires i + 8 <= |s|
    ensures SwarHasEscapable(Word(s, i)) == 0 <==> Plain(s, i, i + 8)
  {
    hide SwarHasEscapable, Word, BadAt, NeedsEscape;
    WordTest(s, i);
    forall k: nat | i <= k < i + 8
      ensures BadAt(s, k) <==> NeedsEscape(s[k])
    {
      BadAtByte(s, k);
    }
  }

  lemma BadAtByte(s: bytes, k: nat)
    requires k < |s|
    ensures BadAt(s, k) <==> NeedsEscape(s[k])
  {
    BadByte(s[k]);
  }

  /** The word-at-a-time loop writes exactly what the reference loop writes. */
  method AppendStringBodySWAR(dst: bytes, s: bytes) returns (out: bytes)
    ensures out == dst + EscapeBody(s)
  {
    hide SwarHasEscapable, Word, EscapeBody, EscapeOf, NeedsEscape;
    out := dst;
    var start := 0;
    var i := 0;
    NothingEscaped(s);
    while i < |s|
      invariant start == i <= |s|
      invariant out == dst + EscapeBody(s[..start])
    {
      while i + 8 <= |s|
        invariant start <= i <= |s| && Plain(s, start, i)
      {
        WordPlain(s, i);
        if SwarHasEscapable(Word(s, i)) != 0 {
          break;
        }
        i := i + 8;
      }
      while i < |s|
        invariant start <= i <= |s| && Plain(s, start, i)
      {
        if NeedsEscape(s[i]) {
          break;
        }
        i := i + 1;
      }
      EscapeSpan(s, start, i);
      if i > start {
        out := out + s[start..i];
        start := i;
      }
      if i < |s| {
        out := out + EscapeOf(s[i]);
        i := i + 1;
        start := i;
      }
    }
    assert s[..|s|] == s;
  }

  // ---- Reading strings back -------------------------------------------------

  function Quoted(s: bytes): bytes { [QUOTE] + (EscapeBody(s) + [QUOTE]) }

  function HexValue(b: byte): Option<int>
  {
    if 0x30 <= b < 0x3A then Some(b - 0x30)
    else if 0x61 <= b < 0x67 then Some(b - 0x61 + 10)
    else if 0x41 <= b < 0x47 then Some(b - 0x41 + 10)
    else None
  }

  /**
   One escape sequence: its byte and its length. Of the \uXXXX forms only code points below
   128 are read, which is all the writer ever emits.
  */
  function ReadEscape(s: bytes): (r: Option<(byte, nat)>)
    ensures r.Some? ==> 2 <= r.value.1 <= |s|
  {
    if |s| < 2 || s[0] != SLASH then None
    else if s[1] == QUOTE || s[1] == SLASH || s[1] == 0x2F then Some((s[1], 2))
    else if s[1] == 0x6E then Some((0x0A, 2))
    else if s[1] == 0x72 then Some((0x0D, 2))
    else if s[1] == 0x74 then Some((0x09, 2))
    else if s[1] == 0x62 then Some((0x08, 2))
    else if s[1] == 0x66 then Some((0x0C, 2))
    else if s[1] == LOWER_U && |s| >= 6 then
      var h3 :- HexValue(s[2]);
      var h2 :- HexValue(s[3]);
      var h1 :- HexValue(s[4]);
      var h0 :- HexValue(s[5]);
      var v := ((h3 * 16 + h2) * 16 + h1) * 16 + h0;
      if 0 <= v < 128 then Some((v, 6)) else None
    else None
  }

  /** The content of a JSON string up to its closing quote, and what follows the quote. */
  function ReadBody(s: bytes): (r: Option<(bytes, bytes)>)
    ensures r.Some? ==> |r.value.1| < |s|
    decreases |s|
  {
    if s == [] || s[0] < 0x20 then None
    else if s[0] == QUOTE then Some(([], s[1..]))
    else if s[0] == SLASH then
      var (b, n) :- ReadEscape(s);
      var (t, rest) :- ReadBody(s[n..]);
      Some(([b] + t, rest))
    else
      var (t, rest) :- ReadBody(s[1..]);
      Some(([s[0]] + t, rest))
  }

  function ReadString(s: bytes): (r: Option<(bytes, bytes)>)
    ensures r.Some? ==> |r.value.1| < |s|
  {
    if s != [] && s[0] == QUOTE then ReadBody(s[1..]) else None
  }

  lemma ReadEscapeOf(c: byte, rest: bytes)
    requires NeedsEscape(c)
    ensures ReadEscape(EscapeOf(c) + rest) == Some((c, |EscapeOf(c)|))
    ensures EscapeOf(c)[0] == SLASH
  {
  }

  function EscapeByte(c: byte): bytes { if NeedsEscape(c) then EscapeOf(c) else [c] }

  lemma EscapeBodyFront(s: bytes)
    requires s != []
    ensures EscapeBody(s) == EscapeByte(s[0]) + EscapeBody(s[1..])
  {
    assert s == [s[0]] + s[1..];
    EscapeBodyConcat([s[0]], s[1..]);
    assert [s[0]][..0] == [];
  }

  lemma ReadEscapedByte(c: byte, t: bytes)
    ensures ReadBody(EscapeByte(c) + t) ==
      match ReadBody(t)
      case None => None
      case Some(p) => Some(([c] + p.0, p.1))
  {
    hide ReadEscape, EscapeOf;
    var s := EscapeByte(c) + t;
    assert s[|EscapeByte(c)|..] == t;
    if NeedsEscape(c) {
      ReadEscapeOf(c, t);
    } else {
      assert s[0] == c;
    }
  }

  lemma {:induction false} ReadBodyOf(s: bytes, rest: bytes)
    ensures ReadBody(EscapeBody(s) + ([QUOTE] + rest)) == Some((s, rest))
  {
    if s == [] {
      assert EscapeBody(s) + ([QUOTE] + rest) == [QUOTE] + rest;
    } else {
      ReadBodyOf(s[1..], rest);
      ReadBodyStep(s, rest);
    }
  }

  lemma ReadBodyStep(s: bytes, rest: bytes)
    requires s != [] && ReadBody(EscapeBody(s[1..]) + ([QUOTE] + rest)) == Some((s[1..], rest))
    ensures ReadBody(EscapeBody(s) + ([QUOTE] + rest)) == Some((s, rest))
  {
    hide EscapeBody, ReadBody, EscapeByte;
    var t := EscapeBody(s[1..]) + ([QUOTE] + rest);
    EscapeBodyFront(s);
    ReadEscapedByte(s[0], t);
    assert EscapeBody(s) + ([QUOTE] + rest) == EscapeByte(s[0]) + t;
    assert s == [s[0]] + s[1..];
  }

  /** Whatever bytes go in, an RFC 8259 reader gets the same bytes out and stops at the right place. */
  lemma ReadStringOf(s: bytes, rest: bytes)
    ensures ReadString(Quoted(s) + rest) == Some((s, rest))
  {
    ReadBodyOf(s, rest);
    assert (Quoted(s) + rest)[1..] == EscapeBody(s) + ([QUOTE] + rest);
  }

  /** No control byte, in particular no newline, survives escaping. */
  lemma {:induction false} EscapedHasNoControl(s: bytes)
    ensures forall k :: 0 <= k < |EscapeBody(s)| ==> EscapeBody(s)[k] >= 0x20
  {
    if s != [] {
      EscapedHasNoControl(s[..|s| - 1]);
    }
  }

  method AppendStringBytes(dst: bytes, s: bytes) returns (out: bytes)
    ensures out == dst + Quoted(s)
  {
    out := AppendStringBodyBytes(dst + [QUOTE], s);
    out := out + [QUOTE];
  }
}
