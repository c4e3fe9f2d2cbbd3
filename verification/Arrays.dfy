/**
 PostgreSQL arrays in binary format: flat row-major elements become nested JSON
 (internal/types/array.go) or nested slices (pgz/scan.go).
*/
module Arrays {
  import opened Bytes
  import opened JsonWriter
  import opened Json
  import opened Rows
  import Scan

  // ---- Elements on the wire ----------------------------------------------------------

  /** One element as the JSON encoder reads it: any negative length is NULL. */
  function TakeElem(s: bytes): (r: Option<(Raw, bytes)>)
    ensures r.Some? ==> |r.value.1| < |s|
  {
    if |s| < 4 then None
    else
      var n := ReadI32(s[..4]);
      if n < 0 then Some((None, s[4..]))
      else if |s| - 4 < n then None
      else Some((Some(s[4..4 + n]), s[4 + n..]))
  }

  /** The first `n` elements and what follows them. */
  function TakeElems(s: bytes, n: nat): (r: Option<(seq<Raw>, bytes)>)
    ensures r.Some? ==> |r.value.0| == n && |r.value.1| <= |s|
  {
    if n == 0 then Some(([], s))
    else
      var (elems, rest) :- TakeElems(s, n - 1);
      var (e, rest') :- TakeElem(rest);
      Some((elems + [e], rest'))
  }

  lemma {:induction false} TakeMore(s: bytes, a: nat, b: nat)
    ensures TakeElems(s, a).None? ==> TakeElems(s, a + b).None?
    ensures TakeElems(s, a).Some? ==>
      var (elems, rest) := TakeElems(s, a).value;
      TakeElems(s, a + b) == match TakeElems(rest, b)
                             case None => None
                             case Some(p) => Some((elems + p.0, p.1))
  {
    hide TakeElem;
    if b > 0 {
      TakeMore(s, a, b - 1);
      if TakeElems(s, a + b - 1).Some? {
        var elems, p := TakeElems(s, a).value.0, TakeElems(TakeElems(s, a).value.1, b - 1).value.0;
        assert forall e :: elems + (p + [e]) == (elems + p) + [e];
      }
    } else if TakeElems(s, a).Some? {
      assert TakeElems(s, a).value.0 + [] == TakeElems(s, a).value.0;
    }
  }

  function Product(dims: seq<nat>): nat
  {
    if dims == [] then 1 else dims[0] * Product(dims[1..])
  }

  function ElemTexts(kind: Kind, elems: seq<Raw>): (r: seq<bytes>)
    ensures |r| == |elems| && forall i :: 0 <= i < |r| ==> r[i] == Encode(kind, elems[i])
  {
    seq(|elems|, i requires 0 <= i < |elems| => Encode(kind, elems[i]))
  }

  // ---- Nested JSON ---------------------------------------------------------------------

  lemma Before(n: nat, m: nat)
    requires n > 0
    ensures (n - 1) * m + m == n * m && (n - 1) * m <= n * m
  {
  }

  /** The row-major elements `texts` with the brackets of the shape around them. */
  function Nest(dims: seq<nat>, texts: seq<bytes>): bytes
    requires |texts| == Product(dims)
    decreases |dims|, 0, 0
  {
    if dims == [] then texts[0]
    else [OPEN_BRACKET] + (Joined(Parts(dims[1..], texts, dims[0])) + [CLOSE_BRACKET])
  }

  /** `n` entries of shape `inner`, one after the other. */
  function Parts(inner: seq<nat>, texts: seq<bytes>, n: nat): (parts: seq<bytes>)
    requires |texts| == n * Product(inner)
    ensures |parts| == n
    decreases |inner|, 1, n
  {
    if n == 0 then []
    else
      var m := Product(inner);
      Before(n, m);
      Parts(inner, texts[..(n - 1) * m], n - 1) + [Nest(inner, texts[(n - 1) * m..])]
  }

  lemma PartsMore(inner: seq<nat>, texts: seq<bytes>, n: nat, more: seq<bytes>)
    requires |texts| == n * Product(inner) && |more| == Product(inner)
    ensures |texts + more| == (n + 1) * Product(inner)
    ensures Parts(inner, texts + more, n + 1) == Parts(inner, texts, n) + [Nest(inner, more)]
  {
    var m := Product(inner);
    Before(n + 1, m);
    assert (texts + more)[..n * m] == texts && (texts + more)[n * m..] == more;
  }

  lemma TextsConcat(kind: Kind, a: seq<Raw>, b: seq<Raw>)
    ensures ElemTexts(kind, a + b) == ElemTexts(kind, a) + ElemTexts(kind, b)
  {
  }

  // ---- The recursive encoder --------------------------------------------------------------

  /** What a call must deliver: all elements of its shape nested, and how many bytes they took. */
  ghost predicate Emitted(dst: bytes, body: bytes, dims: seq<nat>, kind: Kind, out: bytes, consumed: nat)
  {
    && TakeElems(body, Product(dims)).Some? && consumed <= |body|
    && body[consumed..] == TakeElems(body, Product(dims)).value.1
    && out == dst + Nest(dims, ElemTexts(kind, TakeElems(body, Product(dims)).value.0))
  }

  /** Half-way through the entries of one dimension. */
  ghost predicate Emitting(dst: bytes, body: bytes, inner: seq<nat>, kind: Kind, out: bytes, consumed: nat, n: nat)
  {
    && TakeElems(body, n * Product(inner)).Some? && consumed <= |body|
    && body[consumed..] == TakeElems(body, n * Product(inner)).value.1
    && out == dst + ([OPEN_BRACKET] + Joined(Parts(inner, ElemTexts(kind, TakeElems(body, n * Product(inner)).value.0), n)))
  }

  lemma EmittingStart(dst: bytes, body: bytes, inner: seq<nat>, kind: Kind)
    ensures Emitting(dst, body, inner, kind, dst + [OPEN_BRACKET], 0, 0)
  {
    assert 0 * Product(inner) == 0;
    assert Parts(inner, [], 0) == [] && Joined([]) == [];
  }

  /** One more entry, after a comma unless it is the first. */
  lemma EmittingStep(dst: bytes, body: bytes, inner: seq<nat>, kind: Kind, out: bytes, consumed: nat, n: nat,
                     out': bytes, used: nat)
    requires Emitting(dst, body, inner, kind, out, consumed, n)
    requires Emitted(out + (if n > 0 then [COMMA] else []), body[consumed..], inner, kind, out', used)
    ensures consumed + used <= |body| && Emitting(dst, body, inner, kind, out', consumed + used, n + 1)
  {
    hide TakeElems, Encode, Nest, Parts, Joined;
    var m := Product(inner);
    Before(n + 1, m);
    TakeMore(body, n * m, m);
    var elems := TakeElems(body, n * m).value.0;
    var more := TakeElems(body[consumed..], m).value.0;
    TextsConcat(kind, elems, more);
    PartsMore(inner, ElemTexts(kind, elems), n, ElemTexts(kind, more));
    JoinedStep(Parts(inner, ElemTexts(kind, elems), n), Nest(inner, ElemTexts(kind, more)));
    assert body[consumed..][used..] == body[consumed + used..];
  }

  lemma TakeShort(s: bytes, a: nat, b: nat, c: nat)
    requires TakeElems(s, a).Some? && TakeElems(TakeElems(s, a).value.1, b).None?
    ensures TakeElems(s, a + b + c).None?
  {
    hide TakeElems;
    TakeMore(s, a, b);
    TakeMore(s, a + b, c);
  }

  lemma Rest(n: nat, size: nat, m: nat) returns (c: nat)
    requires n < size
    ensures n * m + m + c == size * m
  {
    Within(n, size, m);
    c := size * m - (n + 1) * m;
  }

  lemma Within(i: nat, n: nat, m: nat)
    requires i < n
    ensures i * m + m == (i + 1) * m <= n * m
  {
    MulMono(m, i + 1, n);
  }

  lemma EmittingFails(dst: bytes, body: bytes, inner: seq<nat>, kind: Kind, out: bytes, consumed: nat, n: nat,
                      size: nat)
    requires Emitting(dst, body, inner, kind, out, consumed, n) && n < size
    requires TakeElems(body[consumed..], Product(inner)).None?
    ensures TakeElems(body, size * Product(inner)).None?
  {
    hide TakeElems, Parts, ElemTexts, Joined;
    var m := Product(inner);
    var c := Rest(n, size, m);
    TakeShort(body, n * m, m, c);
  }

  lemma EmittingEnd(dst: bytes, body: bytes, dims: seq<nat>, kind: Kind, out: bytes, consumed: nat)
    requires dims != [] && Emitting(dst, body, dims[1..], kind, out, consumed, dims[0])
    ensures Emitted(dst, body, dims, kind, out + [CLOSE_BRACKET], consumed)
  {
    hide TakeElems, Joined, Parts;
  }

  lemma OneElem(s: bytes)
    ensures Product([]) == 1
    ensures TakeElem(s).None? ==> TakeElems(s, 1).None?
    ensures TakeElem(s).Some? ==> TakeElems(s, 1) == Some(([TakeElem(s).value.0], TakeElem(s).value.1))
  {
    hide TakeElem;
    assert TakeElems(s, 0) == Some(([], s));
    if TakeElem(s).Some? {
      var one := [TakeElem(s).value.0];
      assert [] + one == one;
    }
  }

  lemma EmittedLeaf(dst: bytes, body: bytes, kind: Kind, used: nat)
    requires TakeElem(body).Some? && used <= |body| && body[used..] == TakeElem(body).value.1
    ensures Emitted(dst, body, [], kind, dst + Encode(kind, TakeElem(body).value.0), used)
  {
    hide TakeElem, Encode;
    OneElem(body);
  }

  /** A leaf: one element read and encoded at its place. */
  method AppendElem(dst: bytes, body: bytes, start: nat, kind: Kind) returns (out: bytes, consumed: nat, ok: bool)
    requires start <= |body|
    ensures dst <= out
    ensures ok <==> TakeElem(body[start..]).Some?
    ensures ok ==> start <= consumed <= |body| && Emitted(dst, body[start..], [], kind, out, consumed - start)
    ensures !ok ==> out == dst
  {
    hide Emitted, Encode;
    out, consumed, ok := dst, start, false;
    ghost var s := body[start..];
    if |body| - consumed < 4 {
      return;
    }
    var elemLen := ReadI32(body[consumed..consumed + 4]);
    assert s[..4] == body[start..start + 4];
    consumed := consumed + 4;
    if elemLen < 0 {
      EmittedLeaf(dst, s, kind, 4);
      NullEncodes(kind);
      return dst + NULL, consumed, true;
    }
    if |body| - consumed < elemLen {
      return;
    }
    assert body[consumed..consumed + elemLen] == s[4..4 + elemLen];
    out := out + Encode(kind, Some(body[consumed..consumed + elemLen]));
    consumed := consumed + elemLen;
    EmittedLeaf(dst, s, kind, 4 + elemLen);
    ok := true;
  }

  lemma NullEncodes(kind: Kind)
    ensures Encode(kind, None) == NULL
  {
  }

  /** What stands behind `text` in place of an entry leaves the array without its closing bracket. */
  ghost predicate Stuck(depth: nat, text: bytes)
  {
    forall b: bytes :: var r := ReadTree(depth, text + Quoted(b)); r.None? || r.value.1 == []
  }

  ghost predicate Unreadable(depth: nat, text: bytes)
  {
    forall b: bytes :: ReadTree(depth, text + Quoted(b)).None?
  }

  lemma NothingIsStuck()
    ensures Stuck(0, [])
  {
    forall b: bytes ensures var r := ReadTree(0, [] + Quoted(b)); r.None? || r.value.1 == [] {
      hide Quoted, ReadValue, Render;
      assert Render(Text(b)) == Quoted(b) by { TextRenders(b); }
      ReadValueOf(Text(b), []);
      assert [] + Quoted(b) == Quoted(b) && Quoted(b) + [] == Quoted(b);
    }
  }

  lemma TextRenders(b: bytes)
    ensures Render(Text(b)) == Quoted(b)
  {
  }

  /** If what follows the good items cannot be read as more items, the list cannot be read. */
  lemma {:induction false} ReadItemsFails<T>(read: bytes -> Option<(T, bytes)>, texts: seq<bytes>, items: seq<T>,
                                             close: byte, more: bytes)
    requires texts != [] && ReadsAll(read, texts, items, close) && close != COMMA && ReadItems(read, more, close).None?
    ensures ReadItems(read, Joined(texts) + ([COMMA] + more), close).None?
    decreases |texts|
  {
    hide Reads, ReadItems, Joined;
    assert Reads(read, texts[0], items[0], close);
    if |texts| == 1 {
      ReadOneFails(read, texts[0], items[0], close, more);
      JoinedOne(texts);
    } else {
      assert forall i :: 0 <= i < |texts[1..]| ==> texts[1..][i] == texts[i + 1] && items[1..][i] == items[i + 1];
      ReadItemsFails(read, texts[1..], items[1..], close, more);
      ReadOneFails(read, texts[0], items[0], close, Joined(texts[1..]) + ([COMMA] + more));
      JoinedFront(texts);
      assert Joined(texts) + ([COMMA] + more) == texts[0] + ([COMMA] + (Joined(texts[1..]) + ([COMMA] + more)));
    }
  }

  lemma ReadOneFails<T>(read: bytes -> Option<(T, bytes)>, text: bytes, item: T, close: byte, more: bytes)
    requires Reads(read, text, item, close) && close != COMMA && ReadItems(read, more, close).None?
    ensures ReadItems(read, text + ([COMMA] + more), close).None?
  {
    var tail := [COMMA] + more;
    assert Ends(tail, close) && tail[1..] == more;
    assert read(text + tail) == Some((item, tail));
  }

  /** Good entries, a comma, and then an entry that got stuck. */
  lemma StuckEntry(depth: nat, parts: seq<bytes>, trees: seq<Tree>, text: bytes)
    requires ReadsAll(Reader(depth), parts, trees, CLOSE_BRACKET) && Stuck(depth, text)
    requires text == [] ==> depth == 0
    requires text != [] ==> text[0] == OPEN_BRACKET
    ensures Unreadable(depth + 1, [OPEN_BRACKET] + (Joined(parts) + ((if parts != [] then [COMMA] else []) + text)))
  {
    hide ReadsAll, Joined, ReadTree, Quoted;
    var comma := if parts != [] then [COMMA] else [];
    var all := [OPEN_BRACKET] + (Joined(parts) + (comma + text));
    forall b: bytes ensures ReadTree(depth + 1, all + Quoted(b)).None? {
      var more := text + Quoted(b);
      assert all + Quoted(b) == [OPEN_BRACKET] + (Joined(parts) + (comma + more));
      StuckItems(depth, text, b);
      if parts == [] {
        NoneJoined(parts);
        assert Joined(parts) + (comma + more) == more;
      } else {
        ReadItemsFails(Reader(depth), parts, trees, CLOSE_BRACKET, more);
        PartsStart(depth, parts, trees);
        JoinedFirst(parts);
      }
      NotClosed(depth, Joined(parts) + (comma + more), text, b, parts);
    }
  }

  lemma NoneJoined(parts: seq<bytes>)
    requires parts == []
    ensures Joined(parts) == []
  {
  }

  lemma PartsStart(depth: nat, parts: seq<bytes>, trees: seq<Tree>)
    requires parts != [] && ReadsAll(Reader(depth), parts, trees, CLOSE_BRACKET)
    ensures parts[0] != [] && parts[0][0] != CLOSE_BRACKET
  {
    assert Reads(Reader(depth), parts[0], trees[0], CLOSE_BRACKET);
  }

  lemma StuckItems(depth: nat, text: bytes, b: bytes)
    requires Stuck(depth, text)
    ensures ReadItems(Reader(depth), text + Quoted(b), CLOSE_BRACKET).None?
  {
    hide ReadTree, Quoted;
  }

  lemma NotClosed(depth: nat, t: bytes, text: bytes, b: bytes, parts: seq<bytes>)
    requires ReadItems(Reader(depth), t, CLOSE_BRACKET).None?
    requires (t != [] && t[0] != CLOSE_BRACKET) || (parts == [] && t == text + Quoted(b) && (text == [] || text[0] == OPEN_BRACKET))
    ensures ReadTree(depth + 1, [OPEN_BRACKET] + t).None?
  {
    hide ReadItems, Quoted;
    if parts == [] && t == text + Quoted(b) && (text == [] || text[0] == OPEN_BRACKET) {
      QuoteFirst(b);
      assert t[0] == if text == [] then Quoted(b)[0] else text[0];
    }
    ExpectOf(OPEN_BRACKET, t);
  }

  /** The text of `n` good entries of one dimension is read as their trees. */
  lemma EmittedParts(dst: bytes, body: bytes, inner: seq<nat>, kind: Kind, out: bytes, consumed: nat, n: nat)
    returns (parts: seq<bytes>, trees: seq<Tree>)
    requires Emitting(dst, body, inner, kind, out, consumed, n) && !kind.Decimals?
    ensures |parts| == n && out == dst + ([OPEN_BRACKET] + Joined(parts))
    ensures ReadsAll(Reader(|inner|), parts, trees, CLOSE_BRACKET)
  {
    hide TakeElems, Encode, CellOf, Joined, ReadsAll, Reader, Parts, Trees;
    var elems := TakeElems(body, n * Product(inner)).value.0;
    parts := Parts(inner, ElemTexts(kind, elems), n);
    trees := Trees(inner, ElemValues(kind, elems), n);
    ReadsParts(inner, kind, elems, n);
  }

  /** A dimension that stops at entry `n`. */
  lemma DimStuck(dst: bytes, body: bytes, inner: seq<nat>, kind: Kind, before: bytes, consumed: nat, n: nat,
                 text: bytes, out: bytes)
    requires Emitting(dst, body, inner, kind, before, consumed, n) && !kind.Decimals?
    requires Stuck(|inner|, text) && (if text == [] then inner == [] else text[0] == OPEN_BRACKET)
    requires out == before + (if n > 0 then [COMMA] else []) + text
    ensures dst <= out && Unreadable(|inner| + 1, out[|dst|..])
  {
    hide Emitting, Stuck, Unreadable, Joined, Reader, ReadsAll;
    var parts, trees := EmittedParts(dst, body, inner, kind, before, consumed, n);
    StuckEntry(|inner|, parts, trees, text);
    var comma := if n > 0 then [COMMA] else [];
    assert out == dst + ([OPEN_BRACKET] + (Joined(parts) + (comma + text)));
    assert out[|dst|..] == [OPEN_BRACKET] + (Joined(parts) + (comma + text));
  }

  lemma UnreadableIsStuck(depth: nat, text: bytes)
    requires Unreadable(depth, text)
    ensures Stuck(depth, text)
  {
  }

  /** appendArrayDim: on a short body it stops and keeps what it has written, a bracket never closed. */
  method AppendArrayDim(dst: bytes, body: bytes, dims: seq<nat>, depth: nat, kind: Kind)
    returns (out: bytes, consumed: nat, ok: bool)
    requires depth < |dims|
    ensures dst + [OPEN_BRACKET] <= out
    ensures !ok && !kind.Decimals? ==> Unreadable(|dims| - depth, out[|dst|..])
    ensures ok <==> TakeElems(body, Product(dims[depth..])).Some?
    ensures ok ==> Emitted(dst, body, dims[depth..], kind, out, consumed)
    decreases |dims| - depth
  {
    hide Emitted, Emitting, Encode, TakeElem, TakeElems, Stuck, Unreadable;
    NothingIsStuck();
    ghost var inner := dims[depth + 1..];
    assert dims[depth..][1..] == inner && dims[depth..][0] == dims[depth];
    out := dst + [OPEN_BRACKET];
    consumed := 0;
    ok := false;
    var size := dims[depth];
    EmittingStart(dst, body, inner, kind);
    for i := 0 to size
      invariant consumed <= |body| && Emitting(dst, body, inner, kind, out, consumed, i)
      invariant dst + [OPEN_BRACKET] <= out
    {
      ghost var before := out;
      if i > 0 {
        out := out + [COMMA];
      }
      ghost var from, entry := out, consumed;
      assert from == before + (if i > 0 then [COMMA] else []);
      if depth == |dims| - 1 {
        assert inner == [];
        OneElem(body[consumed..]);
        var good;
        out, consumed, good := AppendElem(out, body, consumed, kind);
        if !good {
          EmittingFails(dst, body, inner, kind, before, entry, i, size);
          if !kind.Decimals? {
            DimStuck(dst, body, inner, kind, before, entry, i, [], out);
          }
          return;
        }
      } else {
        var n, good;
        out, n, good := AppendArrayDim(out, body[consumed..], dims, depth + 1, kind);
        if !good {
          EmittingFails(dst, body, inner, kind, before, entry, i, size);
          if !kind.Decimals? {
            ghost var text := out[|from|..];
            assert out == from + text && text[0] == OPEN_BRACKET;
            UnreadableIsStuck(|inner|, text);
            DimStuck(dst, body, inner, kind, before, entry, i, text, out);
          }
          return out, consumed + n, false;
        }
        consumed := consumed + n;
      }
      EmittingStep(dst, body, inner, kind, before, entry, i, out, consumed - entry);
    }
    EmittingEnd(dst, body, dims[depth..], kind, out, consumed);
    EmittedMeans(dst, body, dims[depth..], kind, out + [CLOSE_BRACKET], consumed);
    out := out + [CLOSE_BRACKET];
    ok := true;
  }

  lemma EmittedMeans(dst: bytes, body: bytes, dims: seq<nat>, kind: Kind, out: bytes, consumed: nat)
    requires Emitted(dst, body, dims, kind, out, consumed)
    ensures TakeElems(body, Product(dims)).Some?
  {
  }

  // ---- Whole arrays as JSON ------------------------------------------------------------------

  datatype Shape = BadHeader | EmptyArray | Shape(dims: seq<nat>, body: bytes)

  function DimAt(raw: bytes, i: nat): int
    requires 16 + 8 * i <= |raw|
  {
    ReadI32(raw[12 + 8 * i..16 + 8 * i])
  }

  /** The first `n` dimensions, unless one is negative. */
  function DimsOf(raw: bytes, n: nat): (r: Option<seq<nat>>)
    requires 12 + 8 * n <= |raw|
    ensures r.Some? ==> |r.value| == n
  {
    if n == 0 then Some([])
    else
      var dims :- DimsOf(raw, n - 1);
      if DimAt(raw, n - 1) < 0 then None else Some(dims + [DimAt(raw, n - 1)])
  }

  function ShapeOf(raw: bytes): Shape
  {
    if |raw| < 12 then BadHeader
    else
      var ndim := ReadI32(raw[0..4]);
      if ndim <= 0 then EmptyArray
      else if |raw| < 12 + 8 * ndim || DimsOf(raw, ndim).None? then BadHeader
      else Shape(DimsOf(raw, ndim).value, raw[12 + 8 * ndim..])
  }

  lemma {:induction false} DimsFail(raw: bytes, i: nat, n: nat)
    requires i <= n && 12 + 8 * n <= |raw| && DimsOf(raw, i).None?
    ensures DimsOf(raw, n).None?
  {
    if i < n {
      DimsFail(raw, i, n - 1);
    }
  }

  /**
   The array encoder. A malformed body leaves its partial output in front of the fallback
   string, and no reader of arrays takes the two together for a value.
  */
  method EncodeArray(dst: bytes, raw0: Raw, kind: Kind) returns (out: bytes, ghost partial: bytes)
    ensures raw0.None? ==> out == dst + NULL
    ensures raw0.Some? ==>
      match ShapeOf(raw0.value)
      case BadHeader => out == dst + Quoted(raw0.value)
      case EmptyArray => out == dst + [OPEN_BRACKET, CLOSE_BRACKET]
      case Shape(dims, body) =>
        if TakeElems(body, Product(dims)).Some?
        then out == dst + Nest(dims, ElemTexts(kind, TakeElems(body, Product(dims)).value.0))
        else out == partial + Quoted(raw0.value) && dst + [OPEN_BRACKET] <= partial
             && (!kind.Decimals? ==> ReadTree(|dims|, out[|dst|..]).None?)
  {
    hide Quoted, TakeElems, ReadI32, Nest, Encode;
    partial := dst;
    if raw0.None? {
      return dst + NULL, dst;
    }
    var raw := raw0.value;
    if |raw| < 12 {
      out := AppendStringBytes(dst, raw);
      return;
    }
    var ndim := ReadI32(raw[0..4]);
    if ndim <= 0 {
      return dst + [OPEN_BRACKET, CLOSE_BRACKET], dst;
    }
    var hdrEnd := 12 + ndim * 8;
    if |raw| < hdrEnd {
      out := AppendStringBytes(dst, raw);
      return;
    }
    var dims: seq<nat> := [];
    for i := 0 to ndim
      invariant DimsOf(raw, i) == Some(dims)
    {
      var d := ReadI32(raw[12 + i * 8..16 + i * 8]);
      if d < 0 {
        DimsFail(raw, i + 1, ndim);
        out := AppendStringBytes(dst, raw);
        return;
      }
      dims := dims + [d];
    }
    var body := raw[hdrEnd..];
    var n, ok;
    out, n, ok := AppendArrayDim(dst, body, dims, 0, kind);
    assert dims[0..] == dims;
    if !ok {
      partial := out;
      out := AppendStringBytes(out, raw);
      if !kind.Decimals? {
        ghost var text := partial[|dst|..];
        assert out[|dst|..] == text + Quoted(raw);
        assert ReadTree(|dims|, text + Quoted(raw)).None?;
      }
    }
  }

  // ---- What the nested text means -----------------------------------------------------------------

  datatype Tree = Leaf(v: Value) | Node(children: seq<Tree>)

  function ElemValues(kind: Kind, elems: seq<Raw>): (r: seq<Value>)
    ensures |r| == |elems| && forall i :: 0 <= i < |r| ==> r[i] == CellOf(kind, elems[i])
  {
    seq(|elems|, i requires 0 <= i < |elems| => CellOf(kind, elems[i]))
  }

  /** Every numeric element is what a server sends. */
  predicate NormalElems(kind: Kind, elems: seq<Raw>) { forall i :: 0 <= i < |elems| ==> NormalCell(kind, elems[i]) }

  /** The row-major array as a tree. */
  function TreeOf(dims: seq<nat>, vals: seq<Value>): Tree
    requires |vals| == Product(dims)
    decreases |dims|, 0, 0
  {
    if dims == [] then Leaf(vals[0]) else Node(Trees(dims[1..], vals, dims[0]))
  }

  function Trees(inner: seq<nat>, vals: seq<Value>, n: nat): (trees: seq<Tree>)
    requires |vals| == n * Product(inner)
    ensures |trees| == n
    decreases |inner|, 1, n
  {
    if n == 0 then []
    else
      var m := Product(inner);
      Before(n, m);
      Trees(inner, vals[..(n - 1) * m], n - 1) + [TreeOf(inner, vals[(n - 1) * m..])]
  }

  /** A reader of JSON arrays nested `depth` levels deep. */
  function ReadTree(depth: nat, s: bytes): Option<(Tree, bytes)>
    decreases depth, 0
  {
    if depth == 0 then
      var (v, rest) :- ReadValue(s);
      Some((Leaf(v), rest))
    else
      var t :- Expect(s, OPEN_BRACKET);
      var (trees, rest) :- ReadList(Reader(depth - 1), t, CLOSE_BRACKET);
      Some((Node(trees), rest))
  }

  function Reader(depth: nat): bytes -> Option<(Tree, bytes)>
    decreases depth, 1
  {
    s => ReadTree(depth, s)
  }

  lemma ReadsLeaf(kind: Kind, raw: Raw, close: byte)
    requires Closer(close) && NormalCell(kind, raw)
    ensures Reads(Reader(0), Encode(kind, raw), Leaf(CellOf(kind, raw)), close)
  {
    hide Encode, CellOf, ReadValue, NormalCell;
    ReadsCell(kind, raw, close);
  }

  lemma ReadNode(depth: nat, parts: seq<bytes>, trees: seq<Tree>, tail: bytes)
    requires ReadsAll(Reader(depth), parts, trees, CLOSE_BRACKET)
    ensures ReadTree(depth + 1, [OPEN_BRACKET] + (Joined(parts) + ([CLOSE_BRACKET] + tail))) == Some((Node(trees), tail))
  {
    hide Joined, ReadsAll, ReadList, Reader, Expect;
    ReadListOf(Reader(depth), parts, trees, CLOSE_BRACKET, tail);
    ExpectOf(OPEN_BRACKET, Joined(parts) + ([CLOSE_BRACKET] + tail));
  }

  lemma NodeText(parts: seq<bytes>, text: bytes, tail: bytes)
    requires text == [OPEN_BRACKET] + (Joined(parts) + [CLOSE_BRACKET])
    ensures text + tail == [OPEN_BRACKET] + (Joined(parts) + ([CLOSE_BRACKET] + tail))
    ensures text != [] && text[0] == OPEN_BRACKET
  {
    hide Joined;
  }

  lemma ReadsNode(depth: nat, parts: seq<bytes>, trees: seq<Tree>, text: bytes, close: byte)
    requires ReadsAll(Reader(depth), parts, trees, CLOSE_BRACKET) && Closer(close)
    requires text == [OPEN_BRACKET] + (Joined(parts) + [CLOSE_BRACKET])
    ensures Reads(Reader(depth + 1), text, Node(trees), close)
  {
    hide Joined, ReadsAll, ReadTree;
    NodeText(parts, text, []);
    forall tail | Ends(tail, close)
      ensures Reader(depth + 1)(text + tail) == Some((Node(trees), tail))
    {
      NodeText(parts, text, tail);
      ReadNode(depth, parts, trees, tail);
    }
  }

  lemma ReadsAllMore<T>(read: bytes -> Option<(T, bytes)>, texts: seq<bytes>, items: seq<T>, close: byte, text: bytes, item: T)
    requires ReadsAll(read, texts, items, close) && Reads(read, text, item, close)
    ensures ReadsAll(read, texts + [text], items + [item], close)
  {
    hide Reads;
  }

  lemma ElemsSplit(kind: Kind, elems: seq<Raw>, k: nat)
    requires k <= |elems|
    ensures ElemTexts(kind, elems)[..k] == ElemTexts(kind, elems[..k])
    ensures ElemTexts(kind, elems)[k..] == ElemTexts(kind, elems[k..])
    ensures ElemValues(kind, elems)[..k] == ElemValues(kind, elems[..k])
    ensures ElemValues(kind, elems)[k..] == ElemValues(kind, elems[k..])
  {
    hide Encode, CellOf;
  }

  lemma LastTree(inner: seq<nat>, vals: seq<Value>, n: nat, k: nat)
    requires |vals| == n * Product(inner) && n > 0 && k == (n - 1) * Product(inner)
    ensures k <= |vals| && |vals[..k]| == (n - 1) * Product(inner) && |vals[k..]| == Product(inner)
    ensures Trees(inner, vals, n) == Trees(inner, vals[..k], n - 1) + [TreeOf(inner, vals[k..])]
  {
    hide TreeOf, Product;
    Before(n, Product(inner));
  }

  lemma LastPart(inner: seq<nat>, texts: seq<bytes>, n: nat, k: nat)
    requires |texts| == n * Product(inner) && n > 0 && k == (n - 1) * Product(inner)
    ensures k <= |texts| && |texts[..k]| == (n - 1) * Product(inner) && |texts[k..]| == Product(inner)
    ensures Parts(inner, texts, n) == Parts(inner, texts[..k], n - 1) + [Nest(inner, texts[k..])]
  {
    hide Nest, Product;
    Before(n, Product(inner));
  }

  lemma NoParts(inner: seq<nat>, kind: Kind)
    requires 0 == 0 * Product(inner)
    ensures Parts(inner, ElemTexts(kind, []), 0) == [] && Trees(inner, ElemValues(kind, []), 0) == []
  {
  }

  lemma {:induction false} ReadsParts(inner: seq<nat>, kind: Kind, elems: seq<Raw>, n: nat)
    requires |elems| == n * Product(inner) && NormalElems(kind, elems)
    ensures ReadsAll(Reader(|inner|), Parts(inner, ElemTexts(kind, elems), n), Trees(inner, ElemValues(kind, elems), n), CLOSE_BRACKET)
    decreases |inner|, 1, n
  {
    hide Encode, CellOf, Reads, Nest, TreeOf, Reader, NormalCell, Parts, Trees, Product, ElemTexts, ElemValues, ReadsAll;
    if n == 0 {
      assert elems == [];
      NoParts(inner, kind);
      assert ReadsAll(Reader(|inner|), [], [], CLOSE_BRACKET) by { ReadsNothing(|inner|); }
    } else {
      var k := (n - 1) * Product(inner);
      LastPart(inner, ElemTexts(kind, elems), n, k);
      LastTree(inner, ElemValues(kind, elems), n, k);
      ElemsSplit(kind, elems, k);
      ReadsParts(inner, kind, elems[..k], n - 1);
      NestReads(inner, kind, elems[k..], CLOSE_BRACKET);
      ReadsAllMore(Reader(|inner|), Parts(inner, ElemTexts(kind, elems[..k]), n - 1),
                   Trees(inner, ElemValues(kind, elems[..k]), n - 1), CLOSE_BRACKET,
                   Nest(inner, ElemTexts(kind, elems[k..])), TreeOf(inner, ElemValues(kind, elems[k..])));
    }
  }

  lemma ReadsNothing(depth: nat)
    ensures ReadsAll(Reader(depth), [], [], CLOSE_BRACKET)
  {
  }

  /** The nested text is JSON for the row-major array, for every shape. */
  lemma {:induction false} NestReads(dims: seq<nat>, kind: Kind, elems: seq<Raw>, close: byte)
    requires |elems| == Product(dims) && Closer(close) && NormalElems(kind, elems)
    ensures Reads(Reader(|dims|), Nest(dims, ElemTexts(kind, elems)), TreeOf(dims, ElemValues(kind, elems)), close)
    decreases |dims|, 0, 0
  {
    hide Encode, CellOf, Reads, Parts, Trees, Reader, ReadsAll, NormalCell;
    if dims == [] {
      ReadsLeaf(kind, elems[0], close);
    } else {
      ReadsParts(dims[1..], kind, elems, dims[0]);
      ReadsNode(|dims| - 1, Parts(dims[1..], ElemTexts(kind, elems), dims[0]),
                Trees(dims[1..], ElemValues(kind, elems), dims[0]), Nest(dims, ElemTexts(kind, elems)), close);
    }
  }

  // ---- Positions ---------------------------------------------------------------------------------

  predicate InShape(dims: seq<nat>, path: seq<nat>)
  {
    |path| == |dims| && forall i :: 0 <= i < |path| ==> path[i] < dims[i]
  }

  /** Where the element at `path` stands in the flat array. */
  function RowMajor(dims: seq<nat>, path: seq<nat>): (k: nat)
    requires InShape(dims, path)
    ensures k < Product(dims)
  {
    if dims == [] then 0
    else
      var m := Product(dims[1..]);
      assert InShape(dims[1..], path[1..]);
      Within(path[0], dims[0], m);
      path[0] * m + RowMajor(dims[1..], path[1..])
  }

  function At(t: Tree, path: seq<nat>): Option<Value>
    decreases |path|
  {
    match t
    case Leaf(v) => if path == [] then Some(v) else None
    case Node(children) => if path == [] || path[0] >= |children| then None else At(children[path[0]], path[1..])
  }

  lemma {:induction false} TreesAt(inner: seq<nat>, vals: seq<Value>, n: nat, i: nat)
    requires |vals| == n * Product(inner) && i < n
    ensures var m := Product(inner);
            i * m + m <= |vals| && Trees(inner, vals, n)[i] == TreeOf(inner, vals[i * m..i * m + m])
  {
    hide TreeOf, Trees, Product;
    var m := Product(inner);
    var k := (n - 1) * m;
    LastTree(inner, vals, n, k);
    Within(i, n, m);
    if i < n - 1 {
      TreesAt(inner, vals[..k], n - 1, i);
      assert vals[..k][i * m..i * m + m] == vals[i * m..i * m + m];
    } else {
      assert vals[k..] == vals[i * m..i * m + m];
    }
  }

  lemma ProductStep(dims: seq<nat>)
    requires dims != []
    ensures Product(dims) == dims[0] * Product(dims[1..])
  {
  }

  lemma TreeChild(dims: seq<nat>, vals: seq<Value>, i: nat)
    requires dims != [] && |vals| == Product(dims) && i < dims[0]
    ensures var m := Product(dims[1..]);
            var tree := TreeOf(dims, vals);
      && i * m + m <= |vals| && tree.Node? && i < |tree.children|
      && tree.children[i] == TreeOf(dims[1..], vals[i * m..i * m + m])
  {
    hide Trees, Product;
    ProductStep(dims);
    TreesAt(dims[1..], vals, dims[0], i);
  }

  /** Walking down the tree finds the row-major element. */
  lemma {:induction false} TreeAt(dims: seq<nat>, vals: seq<Value>, path: seq<nat>)
    requires |vals| == Product(dims) && InShape(dims, path)
    ensures At(TreeOf(dims, vals), path) == Some(vals[RowMajor(dims, path)])
    decreases |dims|
  {
    if dims != [] {
      hide TreeOf, Product, InShape;
      assert InShape(dims[1..], path[1..]) && path != [] && path[0] < dims[0] by { FirstInShape(dims, path); }
      var m, i := Product(dims[1..]), path[0];
      TreeChild(dims, vals, i);
      TreeAt(dims[1..], vals[i * m..i * m + m], path[1..]);
    }
  }

  lemma FirstInShape(dims: seq<nat>, path: seq<nat>)
    requires InShape(dims, path) && dims != []
    ensures path != [] && path[0] < dims[0] && InShape(dims[1..], path[1..])
  {
  }

  // ---- Slices ------------------------------------------------------------------------------------

  /** The zero value of a field type. */
  function ZeroOf(target: Scan.Target): Scan.Value
  {
    match target
    case TBool => Scan.VBool(false)
    case TInt(_) => Scan.VInt(0)
    case TString => Scan.VString([])
    case TBytes => Scan.VBytes(None)
    case TTime => Scan.VTime(-62135596800, 0)
    case NullInt(_) => Scan.VNull(0, false)
    case PtrInt(_) => Scan.VPtr(None)
  }

  /** One element decoded into a fresh slot. */
  function Element(oid: Scan.Oid, target: Scan.Target, raw: Raw): Option<Scan.Value>
    requires Scan.Supported(oid, target)
  {
    Scan.Set(oid, target, ZeroOf(target), raw)
  }

  /** All elements, if each can be decoded. */
  function Elements(oid: Scan.Oid, target: Scan.Target, cells: seq<Raw>): (r: Option<seq<Scan.Value>>)
    requires Scan.Supported(oid, target)
    ensures r.Some? <==> forall i :: 0 <= i < |cells| ==> Element(oid, target, cells[i]).Some?
    ensures r.Some? ==> |r.value| == |cells| && forall i :: 0 <= i < |cells| ==> Some(r.value[i]) == Element(oid, target, cells[i])
  {
    if cells == [] then Some([])
    else
      var n := |cells| - 1;
      var front := Elements(oid, target, cells[..n]);
      assert forall i :: 0 <= i < n ==> cells[..n][i] == cells[i];
      var last := Element(oid, target, cells[n]);
      if front.None? || last.None? then None else Some(front.value + [last.value])
  }

  /**
   `n` elements into a slice of that length, in place. The source writes this loop out twice,
   for the 1-D slice and for each inner slice.
  */
  method FillSlice(raw0: bytes, n: nat, oid: Scan.Oid, target: Scan.Target)
    returns (r: Option<(seq<Scan.Value>, bytes)>)
    requires Scan.Supported(oid, target)
    ensures r.Some? <==> TakeCells(raw0, n).Some? && Elements(oid, target, TakeCells(raw0, n).value.0).Some?
    ensures r.Some? ==> r.value == (Elements(oid, target, TakeCells(raw0, n).value.0).value, TakeCells(raw0, n).value.1)
  {
    hide TakeCell, TakeCells, Element, Elements;
    var slice := new Scan.Value[n](_ => ZeroOf(target));
    var raw := raw0;
    ghost var cells: seq<Raw> := [];
    NoCells(raw0, oid, target);
    for i := 0 to n
      invariant |cells| == i && TakeCells(raw0, i) == Some((cells, raw))
      invariant Elements(oid, target, cells) == Some(slice[..i])
      invariant forall k :: i <= k < n ==> slice[k] == ZeroOf(target)
    {
      var next := NextCell(raw);
      if next.None? {
        TakeCellsFails2(raw0, cells, raw, n);
        return None;
      }
      TakeCellsStep(raw0, cells, next.value.0, raw, next.value.1);
      var v := ElementInto(slice[i], oid, target, next.value.0);
      if v.None? {
        OneBad(raw0, cells, next.value.0, next.value.1, n, oid, target);
        return None;
      }
      ElementsMore(oid, target, cells, next.value.0);
      slice[i] := v.value;
      assert slice[..i + 1] == slice[..i] + [v.value];
      raw := next.value.1;
      cells := cells + [next.value.0];
    }
    assert slice[..n] == slice[..];
    r := Some((slice[..], raw));
  }

  /** The element setter, on the slot as it stands. */
  method ElementInto(slot: Scan.Value, oid: Scan.Oid, target: Scan.Target, raw: Raw) returns (v: Option<Scan.Value>)
    requires Scan.Supported(oid, target) && slot == ZeroOf(target)
    ensures v == Element(oid, target, raw)
  {
    v := Scan.Set(oid, target, slot, raw);
  }

  lemma NoCells(s: bytes, oid: Scan.Oid, target: Scan.Target)
    requires Scan.Supported(oid, target)
    ensures TakeCells(s, 0) == Some(([], s)) && Elements(oid, target, []) == Some([])
  {
  }

  lemma TakeCellsFails2(s: bytes, cells: seq<Raw>, rest: bytes, n: nat)
    requires |cells| < n && TakeCells(s, |cells|) == Some((cells, rest)) && TakeCell(rest).None?
    ensures TakeCells(s, n).None?
  {
    hide TakeCell;
    TakeCellsFails(s, |cells| + 1, n);
  }

  lemma ElementsMore(oid: Scan.Oid, target: Scan.Target, cells: seq<Raw>, cell: Raw)
    requires Scan.Supported(oid, target) && Elements(oid, target, cells).Some?
    ensures Elements(oid, target, cells + [cell]) ==
      match Element(oid, target, cell)
      case None => None
      case Some(v) => Some(Elements(oid, target, cells).value + [v])
  {
    hide Element;
    assert (cells + [cell])[..|cells|] == cells;
  }

  lemma OneBad(s: bytes, cells: seq<Raw>, cell: Raw, rest: bytes, n: nat, oid: Scan.Oid, target: Scan.Target)
    requires |cells| < n && TakeCells(s, |cells| + 1) == Some((cells + [cell], rest))
    requires Scan.Supported(oid, target) && Element(oid, target, cell).None?
    ensures TakeCells(s, n).Some? ==> Elements(oid, target, TakeCells(s, n).value.0).None?
  {
    hide TakeCells, Element, Elements;
    if TakeCells(s, n).Some? {
      Scan.CellsPrefix(s, |cells| + 1, n);
      var all := TakeCells(s, n).value.0;
      assert all[..|cells| + 1][|cells|] == cell;
      assert all[|cells|] == cell;
    }
  }

  datatype Slice1 = Nil1 | Slice1(vals: seq<Scan.Value>) | Error1

  /** pickArraySetter for a []T field. */
  method SetArray1(raw0: Raw, oid: Scan.Oid, target: Scan.Target) returns (r: Slice1)
    requires Scan.Supported(oid, target)
    ensures r.Nil1? <==> raw0.None?
    ensures raw0.Some? ==>
      var raw := raw0.value;
      if |raw| < 12 then r == Error1
      else if ReadI32(raw[0..4]) == 0 then r == Slice1([])
      else if ReadI32(raw[0..4]) != 1 || |raw| < 20 || ReadI32(raw[12..16]) < 0 then r == Error1
      else
        var cells := TakeCells(raw[20..], ReadI32(raw[12..16]));
        if cells.None? || Elements(oid, target, cells.value.0).None? then r == Error1
        else r == Slice1(Elements(oid, target, cells.value.0).value)
  {
    hide TakeCells, Elements, ReadI32, Scan.Supported;
    if raw0.None? {
      return Nil1;
    }
    var raw := raw0.value;
    if |raw| < 12 {
      return Error1;
    }
    var ndim := ReadI32(raw[0..4]);
    raw := raw[12..];
    if ndim == 0 {
      return Slice1([]);
    }
    if ndim != 1 || |raw| < 8 {
      return Error1;
    }
    var dimLen := ReadI32(raw[0..4]);
    assert raw[0..4] == raw0.value[12..16] && raw[8..] == raw0.value[20..];
    raw := raw[8..];
    if dimLen < 0 {
      return Error1;
    }
    var filled := FillSlice(raw, dimLen, oid, target);
    r := if filled.Some? then Slice1(filled.value.0) else Error1;
  }

  datatype Slice2 = Nil2 | Slice2(rows: seq<seq<Scan.Value>>) | Error2

  /** Row-major values cut into `n` rows of `m`. */
  function Cut<T>(vals: seq<T>, n: nat, m: nat): (rows: seq<seq<T>>)
    requires |vals| == n * m
    ensures |rows| == n
  {
    if n == 0 then [] else (Before(n, m); Cut(vals[..(n - 1) * m], n - 1, m) + [vals[(n - 1) * m..]])
  }

  lemma {:induction false} CutAt<T>(vals: seq<T>, n: nat, m: nat, i: nat, j: nat)
    requires |vals| == n * m && i < n && j < m
    ensures |Cut(vals, n, m)[i]| == m && 0 <= i * m + j < n * m && Cut(vals, n, m)[i][j] == vals[i * m + j]
  {
    Before(n, m);
    Within(i, n, m);
    if i < n - 1 {
      CutAt(vals[..(n - 1) * m], n - 1, m, i, j);
    }
  }

  lemma CutMore<T>(vals: seq<T>, n: nat, m: nat, row: seq<T>)
    requires |vals| == n * m && |row| == m
    ensures |vals + row| == (n + 1) * m && Cut(vals + row, n + 1, m) == Cut(vals, n, m) + [row]
  {
    Before(n + 1, m);
    assert (vals + row)[..n * m] == vals && (vals + row)[n * m..] == row;
  }

  lemma {:induction false} CellsMore(s: bytes, a: nat, b: nat)
    ensures TakeCells(s, a).None? ==> TakeCells(s, a + b).None?
    ensures TakeCells(s, a).Some? ==>
      var (cells, rest) := TakeCells(s, a).value;
      TakeCells(s, a + b) == match TakeCells(rest, b)
                             case None => None
                             case Some(p) => Some((cells + p.0, p.1))
  {
    hide TakeCell;
    if b > 0 {
      CellsMore(s, a, b - 1);
      if TakeCells(s, a + b - 1).Some? {
        var cells, p := TakeCells(s, a).value.0, TakeCells(TakeCells(s, a).value.1, b - 1).value.0;
        assert forall e :: cells + (p + [e]) == (cells + p) + [e];
      }
    } else if TakeCells(s, a).Some? {
      assert TakeCells(s, a).value.0 + [] == TakeCells(s, a).value.0;
    }
  }

  lemma ElementsConcat(oid: Scan.Oid, target: Scan.Target, a: seq<Raw>, b: seq<Raw>)
    requires Scan.Supported(oid, target)
    ensures Elements(oid, target, a + b).Some? <==> Elements(oid, target, a).Some? && Elements(oid, target, b).Some?
    ensures Elements(oid, target, a + b).Some? ==>
              Elements(oid, target, a + b).value == Elements(oid, target, a).value + Elements(oid, target, b).value
  {
    hide Element, Elements;
    assert forall i :: 0 <= i < |a| ==> (a + b)[i] == a[i];
    assert forall i :: 0 <= i < |b| ==> (a + b)[|a| + i] == b[i];
  }

  /** The rows of a 2-D array body: all elements decoded, cut into rows. */
  function RowsOf(raw: bytes, outer: nat, inner: nat, oid: Scan.Oid, target: Scan.Target): Option<seq<seq<Scan.Value>>>
    requires Scan.Supported(oid, target)
  {
    var (cells, _) :- TakeCells(raw, outer * inner);
    var vals :- Elements(oid, target, cells);
    Some(Cut(vals, outer, inner))
  }

  /** After `i` rows: their cells, what follows, and the rows. */
  ghost predicate RowsDone(raw0: bytes, i: nat, inner: nat, oid: Scan.Oid, target: Scan.Target, raw: bytes,
                           rows: seq<seq<Scan.Value>>)
    requires Scan.Supported(oid, target)
  {
    && TakeCells(raw0, i * inner).Some? && TakeCells(raw0, i * inner).value.1 == raw
    && RowsOf(raw0, i, inner, oid, target) == Some(rows)
  }

  lemma RowsStart(raw0: bytes, inner: nat, oid: Scan.Oid, target: Scan.Target)
    requires Scan.Supported(oid, target)
    ensures RowsDone(raw0, 0, inner, oid, target, raw0, [])
  {
    assert 0 * inner == 0;
    NoCells(raw0, oid, target);
  }

  lemma RowsStep(raw0: bytes, i: nat, inner: nat, oid: Scan.Oid, target: Scan.Target, raw: bytes,
                 rows: seq<seq<Scan.Value>>)
    requires Scan.Supported(oid, target) && RowsDone(raw0, i, inner, oid, target, raw, rows)
    requires TakeCells(raw, inner).Some? && Elements(oid, target, TakeCells(raw, inner).value.0).Some?
    ensures RowsDone(raw0, i + 1, inner, oid, target, TakeCells(raw, inner).value.1,
                     rows + [Elements(oid, target, TakeCells(raw, inner).value.0).value])
  {
    hide TakeCells, Elements, Cut;
    Before(i + 1, inner);
    CellsMore(raw0, i * inner, inner);
    var a, b := TakeCells(raw0, i * inner).value.0, TakeCells(raw, inner).value.0;
    ElementsConcat(oid, target, a, b);
    CutMore(Elements(oid, target, a).value, i, inner, Elements(oid, target, b).value);
  }

  lemma RowsFail(raw0: bytes, i: nat, outer: nat, inner: nat, oid: Scan.Oid, target: Scan.Target, raw: bytes,
                 rows: seq<seq<Scan.Value>>)
    requires Scan.Supported(oid, target) && RowsDone(raw0, i, inner, oid, target, raw, rows) && i < outer
    requires TakeCells(raw, inner).None? || Elements(oid, target, TakeCells(raw, inner).value.0).None?
    ensures RowsOf(raw0, outer, inner, oid, target).None?
  {
    hide TakeCells, Elements, Cut;
    Before(i + 1, inner);
    CellsMore(raw0, i * inner, inner);
    var c := Rest(i, outer, inner);
    CellsMore(raw0, i * inner + inner, c);
    if TakeCells(raw0, outer * inner).Some? {
      var a, b := TakeCells(raw0, i * inner).value.0, TakeCells(raw, inner).value.0;
      ElementsConcat(oid, target, a, b);
      var d := TakeCells(TakeCells(raw0, i * inner + inner).value.1, c).value.0;
      ElementsConcat(oid, target, a + b, d);
    }
  }

  /** pickArraySetter for a [][]T field. */
  method SetArray2(raw0: Raw, oid: Scan.Oid, target: Scan.Target) returns (r: Slice2)
    requires Scan.Supported(oid, target)
    ensures r.Nil2? <==> raw0.None?
    ensures raw0.Some? ==>
      var raw := raw0.value;
      if |raw| < 12 then r == Error2
      else if ReadI32(raw[0..4]) == 0 then r == Slice2([])
      else if ReadI32(raw[0..4]) != 2 || |raw| < 28 || ReadI32(raw[12..16]) < 0 || ReadI32(raw[20..24]) < 0 then r == Error2
      else
        var rows := RowsOf(raw[28..], ReadI32(raw[12..16]), ReadI32(raw[20..24]), oid, target);
        r == if rows.None? then Error2 else Slice2(rows.value)
  {
    hide TakeCells, Elements, ReadI32, Scan.Supported, RowsOf, RowsDone;
    if raw0.None? {
      return Nil2;
    }
    var raw := raw0.value;
    if |raw| < 12 {
      return Error2;
    }
    var ndim := ReadI32(raw[0..4]);
    raw := raw[12..];
    if ndim == 0 {
      return Slice2([]);
    }
    if ndim != 2 || |raw| < 16 {
      return Error2;
    }
    var outerLen, innerLen := ReadI32(raw[0..4]), ReadI32(raw[8..12]);
    assert raw[0..4] == raw0.value[12..16] && raw[8..12] == raw0.value[20..24] && raw[16..] == raw0.value[28..];
    raw := raw[16..];
    if outerLen < 0 || innerLen < 0 {
      return Error2;
    }
    ghost var body := raw;
    var outer: seq<seq<Scan.Value>> := [];
    RowsStart(raw, innerLen, oid, target);
    for i := 0 to outerLen
      invariant RowsDone(body, i, innerLen, oid, target, raw, outer)
    {
      var filled := FillSlice(raw, innerLen, oid, target);
      if filled.None? {
        RowsFail(body, i, outerLen, innerLen, oid, target, raw, outer);
        return Error2;
      }
      RowsStep(body, i, innerLen, oid, target, raw, outer);
      outer := outer + [filled.value.0];
      raw := filled.value.1;
    }
    RowsAre(body, outerLen, innerLen, oid, target, raw, outer);
    r := Slice2(outer);
  }

  lemma RowsAre(raw0: bytes, i: nat, inner: nat, oid: Scan.Oid, target: Scan.Target, raw: bytes,
                rows: seq<seq<Scan.Value>>)
    requires Scan.Supported(oid, target) && RowsDone(raw0, i, inner, oid, target, raw, rows)
    ensures RowsOf(raw0, i, inner, oid, target) == Some(rows)
  {
  }

  // ---- The two readers agree --------------------------------------------------------------------------

  /** The readers differ on one thing only: lengths below -1 are NULL for JSON and an error for slices. */
  lemma ElemAgreesIff(s: bytes)
    ensures TakeElem(s) == TakeCell(s) <==> |s| < 4 || !(ReadI32(s[..4]) < -1)
  {
  }

  lemma {:induction false} ElemsAgree(s: bytes, n: nat)
    requires TakeCells(s, n).Some?
    ensures TakeElems(s, n) == TakeCells(s, n)
  {
    if n > 0 {
      ElemsAgree(s, n - 1);
      ElemAgreesIff(TakeCells(s, n - 1).value.1);
    }
  }

  /** Whatever a 2-D setter accepts: its [i][j] and the JSON tree's [i][j] are the same wire element. */
  lemma SameElement(raw: bytes, outer: nat, inner: nat, oid: Scan.Oid, target: Scan.Target, kind: Kind, i: nat, j: nat)
    requires Scan.Supported(oid, target) && RowsOf(raw, outer, inner, oid, target).Some? && i < outer && j < inner
    ensures Product([outer, inner]) == outer * inner && TakeElems(raw, outer * inner).Some? && i * inner + j < outer * inner
    ensures var elems, rows := TakeElems(raw, outer * inner).value.0, RowsOf(raw, outer, inner, oid, target).value;
            && |rows| == outer && |rows[i]| == inner
            && Some(rows[i][j]) == Element(oid, target, elems[i * inner + j])
            && At(TreeOf([outer, inner], ElemValues(kind, elems)), [i, j]) == Some(CellOf(kind, elems[i * inner + j]))
  {
    hide TakeCells, TakeElems, Element, CellOf, TreeOf, At;
    ElemsAgree(raw, outer * inner);
    Shape2(outer, inner, i, j);
    var elems := TakeElems(raw, outer * inner).value.0;
    CutAt(Elements(oid, target, elems).value, outer, inner, i, j);
    TreeAt([outer, inner], ElemValues(kind, elems), [i, j]);
  }

  lemma Shape2(outer: nat, inner: nat, i: nat, j: nat)
    requires i < outer && j < inner
    ensures Product([outer, inner]) == outer * inner
    ensures InShape([outer, inner], [i, j]) && RowMajor([outer, inner], [i, j]) == i * inner + j
  {
    assert [outer, inner][1..] == [inner] && [inner][1..] == [] && [i, j][1..] == [j] && [j][1..] == [];
    assert Product([inner]) == inner * Product([]) == inner;
    assert InShape([inner], [j]) && RowMajor([inner], [j]) == j * 1 + 0;
  }
}
