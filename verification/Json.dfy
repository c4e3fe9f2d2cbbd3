/**
 The JSON a row is made of: values, comma-separated lists, and readers for both by the grammar
 of RFC 8259 (numbers without exponents, which is all the modelled columns produce).
*/
module Json {
  import opened Bytes
  import opened JsonWriter
  import DateTime
  import Numeric

  const COMMA: byte := 0x2C
  const COLON: byte := 0x3A
  const NEWLINE: byte := 0x0A
  const OPEN_BRACE: byte := 0x7B
  const CLOSE_BRACE: byte := 0x7D
  const OPEN_BRACKET: byte := 0x5B
  const CLOSE_BRACKET: byte := 0x5D

  const NULL: bytes := DateTime.NULL_TEXT
  const TRUE: bytes := [0x74, 0x72, 0x75, 0x65]
  const FALSE: bytes := [0x66, 0x61, 0x6C, 0x73, 0x65]

  /** A decimal is all its digits as one integer, with `scale` of them behind the point. */
  datatype Value =
    | Null | Bool(b: bool) | Number(v: int) | Decimal(neg: bool, digits: int, scale: int) | Text(s: bytes)

  /** Numbers without a fraction are integers, except that JSON keeps a minus in front of a zero. */
  function NumberValue(neg: bool, digits: int, scale: int): Value
  {
    if scale == 0 && !(neg && digits == 0) then Number(if neg then 0 - digits else digits) else Decimal(neg, digits, scale)
  }

  function Render(v: Value): (t: bytes)
    requires !v.Decimal?
    ensures t != []
  {
    match v
    case Null => NULL
    case Bool(b) => if b then TRUE else FALSE
    case Number(n) => IntText(n)
    case Text(s) => Quoted(s)
  }

  // ---- Values ----------------------------------------------------------------

  /** A number without superfluous leading zeros. */
  function ReadNumber(s: bytes): (r: Option<(Value, bytes)>)
    ensures r.Some? ==> |r.value.1| < |s|
  {
    var (neg, digits, scale, rest) :- Numeric.ReadDecimal(s);
    var d := if s != [] && s[0] == MINUS then s[1..] else s;
    if |d| >= 2 && d[0] == ZERO && IsDigit(d[1]) then None else Some((NumberValue(neg, digits, scale), rest))
  }

  function ReadValue(s: bytes): (r: Option<(Value, bytes)>)
    ensures r.Some? ==> |r.value.1| < |s|
  {
    if NULL <= s then Some((Null, s[|NULL|..]))
    else if TRUE <= s then Some((Bool(true), s[|TRUE|..]))
    else if FALSE <= s then Some((Bool(false), s[|FALSE|..]))
    else if s != [] && s[0] == QUOTE then
      var (t, rest) :- ReadString(s);
      Some((Text(t), rest))
    else ReadNumber(s)
  }

  /** A value ends where its text ends: what follows must not look like more of a number. */
  predicate Delimits(tail: bytes) { tail == [] || (!IsDigit(tail[0]) && tail[0] != Numeric.DOT) }

  /** A sign, digits, and perhaps a fraction: read as that number, unless there are zeros in front. */
  lemma ReadNumberParts(neg: bool, a: bytes, f: bytes, tail: bytes)
    requires |a| > 0 && AllDigits(a) && AllDigits(f) && AllDigits(a + f) && Delimits(tail)
    ensures var s := (if neg then [MINUS] else []) + (a + ((if f == [] then [] else [Numeric.DOT] + f) + tail));
      && s != [] && (IsDigit(s[0]) || s[0] == MINUS)
      && ReadNumber(s) == if |a| > 1 && a[0] == ZERO then None else Some((NumberValue(neg, DecValue(a + f), |f|), tail))
  {
    hide DecValue, Numeric.ReadDecimal;
    Numeric.ReadDecimalOf(neg, a, f, tail);
    var d := a + ((if f == [] then [] else [Numeric.DOT] + f) + tail);
    var s := (if neg then [MINUS] else []) + d;
    assert IsDigit(a[0]) && d[0] == a[0];
    if neg {
      assert s[1..] == d;
    } else {
      assert s == d;
    }
    if |a| == 1 && |d| >= 2 {
      assert d[1] == if f != [] then Numeric.DOT else tail[0];
    } else if |a| > 1 {
      assert d[1] == a[1] && IsDigit(a[1]);
    }
  }

  lemma ReadDigits(neg: bool, d: bytes, tail: bytes)
    requires |d| > 0 && AllDigits(d) && Delimits(tail) && (d[0] == ZERO ==> |d| == 1)
    ensures ReadNumber((if neg then [MINUS] else []) + (d + tail)) == Some((NumberValue(neg, DecValue(d), 0), tail))
  {
    hide ReadNumber, DecValue;
    assert d + [] == d && [] + tail == tail;
    ReadNumberParts(neg, d, [], tail);
  }

  lemma ReadNumberOf(v: int, tail: bytes)
    requires Delimits(tail)
    ensures ReadNumber(IntText(v) + tail) == Some((Number(v), tail))
  {
    hide NatText, ReadNumber, DecValue, AllDigits;
    var n := if v < 0 then -v else v;
    NatTextValue(n);
    Numeric.NatTextLead(n);
    ReadDigits(v < 0, NatText(n), tail);
    IntTextParts(v, tail);
  }

  lemma IntTextParts(v: int, tail: bytes)
    ensures IntText(v) + tail == (if v < 0 then [MINUS] else []) + (NatText(if v < 0 then -v else v) + tail)
  {
    hide NatText;
    var d := NatText(if v < 0 then -v else v);
    assert [] + (d + tail) == d + tail;
  }

  lemma LiteralOf(t: bytes, tail: bytes)
    ensures t <= t + tail && (t + tail)[|t|..] == tail
  {
  }

  /** Every rendered value is read back, and the reader stops right behind it. */
  lemma ReadValueOf(v: Value, tail: bytes)
    requires Delimits(tail) && !v.Decimal?
    ensures ReadValue(Render(v) + tail) == Some((v, tail))
  {
    hide ReadNumber, ReadString, Quoted, IntText;
    var s := Render(v) + tail;
    assert s[0] == Render(v)[0];
    match v
    case Null => LiteralOf(NULL, tail);
    case Bool(b) => LiteralOf(if b then TRUE else FALSE, tail);
    case Text(t) =>
      ReadStringOf(t, tail);
      QuoteFirst(t);
    case Number(n) =>
      ReadNumberOf(n, tail);
      NumberFirst(n);
  }

  lemma QuoteFirst(t: bytes)
    ensures Quoted(t) != [] && Quoted(t)[0] == QUOTE
  {
  }

  lemma NumberFirst(n: int)
    ensures IsDigit(IntText(n)[0]) || IntText(n)[0] == MINUS
  {
  }

  // ---- Lists -------------------------------------------------------------------

  /** Items with commas between them. */
  function Joined(texts: seq<bytes>): bytes
  {
    if texts == [] then []
    else if |texts| == 1 then texts[0]
    else Joined(texts[..|texts| - 1]) + ([COMMA] + texts[|texts| - 1])
  }

  lemma {:induction false} JoinedFront(texts: seq<bytes>)
    requires |texts| > 1
    ensures Joined(texts) == texts[0] + ([COMMA] + Joined(texts[1..]))
  {
    var n := |texts| - 1;
    if n > 1 {
      JoinedFront(texts[..n]);
      assert texts[..n][1..] == texts[1..][..n - 1] && texts[1..][n - 1] == texts[n];
      assert Joined(texts) == texts[0] + ([COMMA] + Joined(texts[1..][..n - 1])) + ([COMMA] + texts[n]);
    } else {
      assert texts[..1] == [texts[0]] && texts[1..] == [texts[1]];
    }
  }

  /** One or more items, up to and including the closing byte. */
  function ReadItems<T>(read: bytes -> Option<(T, bytes)>, s: bytes, close: byte): Option<(seq<T>, bytes)>
    decreases |s|
  {
    var (item, rest) :- read(s);
    if |rest| >= |s| || rest == [] then None
    else if rest[0] == close then Some(([item], rest[1..]))
    else if rest[0] == COMMA then
      var (items, after) :- ReadItems(read, rest[1..], close);
      Some(([item] + items, after))
    else None
  }

  function ReadList<T>(read: bytes -> Option<(T, bytes)>, s: bytes, close: byte): Option<(seq<T>, bytes)>
  {
    if s != [] && s[0] == close then Some(([], s[1..])) else ReadItems(read, s, close)
  }

  predicate Ends(tail: bytes, close: byte) { tail != [] && (tail[0] == COMMA || tail[0] == close) }

  /** `text` is read as `item` wherever a list may put it. */
  ghost predicate Reads<T>(read: bytes -> Option<(T, bytes)>, text: bytes, item: T, close: byte)
  {
    && text != [] && text[0] != close
    && forall tail :: Ends(tail, close) ==> read(text + tail) == Some((item, tail))
  }

  ghost predicate ReadsAll<T>(read: bytes -> Option<(T, bytes)>, texts: seq<bytes>, items: seq<T>, close: byte)
  {
    |texts| == |items| && forall i :: 0 <= i < |texts| ==> Reads(read, texts[i], items[i], close)
  }

  lemma ReadLastItem<T>(read: bytes -> Option<(T, bytes)>, text: bytes, item: T, close: byte, rest: bytes)
    requires Reads(read, text, item, close) && close != COMMA
    ensures ReadItems(read, text + ([close] + rest), close) == Some(([item], rest))
  {
    var tail := [close] + rest;
    assert Ends(tail, close) && tail[1..] == rest;
    assert read(text + tail) == Some((item, tail));
  }

  lemma ReadOneItem<T>(read: bytes -> Option<(T, bytes)>, text: bytes, item: T, close: byte, more: bytes,
                       items: seq<T>, after: bytes)
    requires Reads(read, text, item, close) && close != COMMA
    requires ReadItems(read, more, close) == Some((items, after))
    ensures ReadItems(read, text + ([COMMA] + more), close) == Some(([item] + items, after))
  {
    var tail := [COMMA] + more;
    assert Ends(tail, close) && tail[1..] == more;
    assert read(text + tail) == Some((item, tail));
  }

  lemma {:induction false} ReadItemsOf<T>(read: bytes -> Option<(T, bytes)>, texts: seq<bytes>, items: seq<T>,
                                          close: byte, rest: bytes)
    requires texts != [] && ReadsAll(read, texts, items, close) && close != COMMA
    ensures ReadItems(read, Joined(texts) + ([close] + rest), close) == Some((items, rest))
    decreases |texts|
  {
    hide Reads, ReadItems, Joined;
    assert Reads(read, texts[0], items[0], close);
    if |texts| == 1 {
      ReadLastItem(read, texts[0], items[0], close, rest);
      JoinedOne(texts);
      assert items == [items[0]];
    } else {
      assert forall i :: 0 <= i < |texts[1..]| ==> texts[1..][i] == texts[i + 1] && items[1..][i] == items[i + 1];
      ReadItemsOf(read, texts[1..], items[1..], close, rest);
      var more := Joined(texts[1..]) + ([close] + rest);
      ReadOneItem(read, texts[0], items[0], close, more, items[1..], rest);
      JoinedFront(texts);
      assert Joined(texts) + ([close] + rest) == texts[0] + ([COMMA] + more);
      assert items == [items[0]] + items[1..];
    }
  }

  lemma JoinedOne(texts: seq<bytes>)
    requires |texts| == 1
    ensures Joined(texts) == texts[0]
  {
  }

  /** If every item reads back in place, so does the list of them. */
  lemma ReadListOf<T>(read: bytes -> Option<(T, bytes)>, texts: seq<bytes>, items: seq<T>, close: byte, rest: bytes)
    requires ReadsAll(read, texts, items, close) && close != COMMA
    ensures ReadList(read, Joined(texts) + ([close] + rest), close) == Some((items, rest))
  {
    var s := Joined(texts) + ([close] + rest);
    if texts == [] {
      assert s == [close] + rest && s[1..] == rest && items == [];
    } else {
      ReadItemsOf(read, texts, items, close, rest);
      assert Reads(read, texts[0], items[0], close);
      JoinedFirst(texts);
      assert s[0] == texts[0][0];
    }
  }

  lemma JoinedFirst(texts: seq<bytes>)
    requires texts != [] && texts[0] != []
    ensures Joined(texts) != [] && Joined(texts)[0] == texts[0][0]
  {
    if |texts| > 1 {
      JoinedFront(texts);
    }
  }

  // ---- Streams -------------------------------------------------------------------

  function Concat(texts: seq<bytes>): bytes
  {
    if texts == [] then [] else Concat(texts[..|texts| - 1]) + texts[|texts| - 1]
  }

  lemma {:induction false} ConcatFront(texts: seq<bytes>)
    requires texts != []
    ensures Concat(texts) == texts[0] + Concat(texts[1..])
  {
    var n := |texts| - 1;
    if n > 0 {
      ConcatFront(texts[..n]);
      assert texts[..n][1..] == texts[1..][..n - 1] && texts[1..][n - 1] == texts[n];
    } else {
      assert texts[..0] == [] && texts[1..] == [] && Concat([]) == [];
    }
  }

  /** Items one after the other up to the end of the input. */
  function ReadMany<T>(read: bytes -> Option<(T, bytes)>, s: bytes): Option<seq<T>>
    decreases |s|
  {
    if s == [] then Some([])
    else
      var (item, rest) :- read(s);
      if |rest| >= |s| then None
      else
        var items :- ReadMany(read, rest);
        Some([item] + items)
  }

  /** `text` is read as `item` whatever follows it. */
  ghost predicate ReadsAnywhere<T>(read: bytes -> Option<(T, bytes)>, text: bytes, item: T)
  {
    text != [] && forall tail :: read(text + tail) == Some((item, tail))
  }

  lemma {:induction false} ReadManyOf<T>(read: bytes -> Option<(T, bytes)>, texts: seq<bytes>, items: seq<T>)
    requires |texts| == |items| && forall i :: 0 <= i < |texts| ==> ReadsAnywhere(read, texts[i], items[i])
    ensures ReadMany(read, Concat(texts)) == Some(items)
    decreases |texts|
  {
    if texts != [] {
      assert forall i :: 0 <= i < |texts[1..]| ==> texts[1..][i] == texts[i + 1] && items[1..][i] == items[i + 1];
      ReadManyOf(read, texts[1..], items[1..]);
      assert ReadsAnywhere(read, texts[0], items[0]);
      ConcatFront(texts);
      assert items == [items[0]] + items[1..];
    }
  }
}
