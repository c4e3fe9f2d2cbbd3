/**
 Arrays as PostgreSQL sends them (array_send), and what the JSON encoder and the slice setters find
 in them (internal/types/array.go, pgz/scan.go).
*/
module ServerArrays {
  import opened Bytes
  import opened Arrays
  import opened ServerValues
  import Calendar
  import Json
  import Rows
  import Scan

  /** Length and lower bound of each dimension. */
  function DimBytes(dims: seq<nat>, lower: seq<int>): (s: bytes)
    requires |lower| == |dims|
    ensures |s| == 8 * |dims|
  {
    if dims == [] then []
    else
      var n := |dims| - 1;
      DimBytes(dims[..n], lower[..n]) + (I32(dims[n]) + I32(lower[n]))
  }

  function HeaderBytes(dims: seq<nat>, lower: seq<int>, hasNull: bool, elemType: int): (s: bytes)
    requires |lower| == |dims|
    ensures |s| == 12 + 8 * |dims|
  {
    I32(|dims|) + (I32(if hasNull then 1 else 0) + I32(elemType)) + DimBytes(dims, lower)
  }

  /** array_send; an array without dimensions has no elements. */
  function ArrayBytes(dims: seq<nat>, lower: seq<int>, elemType: int, elems: seq<Rows.Raw>): bytes
    requires |lower| == |dims|
  {
    HeaderBytes(dims, lower, None in elems, elemType) + Rows.CellsBytes(elems)
  }

  predicate DimsFit(dims: seq<nat>) { forall i :: 0 <= i < |dims| ==> dims[i] < TWO_31 }

  lemma {:induction false} DimBytesAt(dims: seq<nat>, lower: seq<int>, i: nat)
    requires |lower| == |dims| && i < |dims|
    ensures DimBytes(dims, lower)[8 * i..8 * i + 4] == I32(dims[i])
  {
    hide I32;
    var n := |dims| - 1;
    var front, last := DimBytes(dims[..n], lower[..n]), I32(dims[n]) + I32(lower[n]);
    if i < n {
      DimBytesAt(dims[..n], lower[..n], i);
      assert (front + last)[8 * i..8 * i + 4] == front[8 * i..8 * i + 4];
    } else {
      assert (front + last)[8 * n..8 * n + 4] == I32(dims[n]);
    }
  }

  lemma {:induction false} DimsRead(raw: bytes, dims: seq<nat>, n: nat)
    requires n <= |dims| && 12 + 8 * |dims| <= |raw| && DimsFit(dims)
    requires forall i :: 0 <= i < |dims| ==> raw[12 + 8 * i..16 + 8 * i] == I32(dims[i])
    ensures DimsOf(raw, n) == Some(dims[..n])
  {
    hide I32, ReadI32;
    if n > 0 {
      DimsRead(raw, dims, n - 1);
      ReadI32RoundTrip(dims[n - 1]);
      assert dims[..n] == dims[..n - 1] + [dims[n - 1]];
    }
  }

  lemma HeaderAt(dims: seq<nat>, lower: seq<int>, hasNull: bool, elemType: int, body: bytes)
    requires |lower| == |dims|
    ensures var raw := HeaderBytes(dims, lower, hasNull, elemType) + body;
      && raw[0..4] == I32(|dims|) && raw[12 + 8 * |dims|..] == body
      && forall i :: 0 <= i < |dims| ==> raw[12 + 8 * i..16 + 8 * i] == I32(dims[i])
  {
    hide I32, DimBytes;
    var raw := HeaderBytes(dims, lower, hasNull, elemType) + body;
    forall i | 0 <= i < |dims| ensures raw[12 + 8 * i..16 + 8 * i] == I32(dims[i]) {
      DimBytesAt(dims, lower, i);
      assert raw[12 + 8 * i..16 + 8 * i] == DimBytes(dims, lower)[8 * i..8 * i + 4];
    }
  }

  /** The decoder finds the dimensions and the elements where the server puts them. */
  lemma ShapeSent(dims: seq<nat>, lower: seq<int>, elemType: int, elems: seq<Rows.Raw>)
    requires |lower| == |dims| < 0x1000_0000 && DimsFit(dims)
    ensures ShapeOf(ArrayBytes(dims, lower, elemType, elems))
         == if dims == [] then EmptyArray else Shape(dims, Rows.CellsBytes(elems))
  {
    hide I32, ReadI32, HeaderBytes, Rows.CellsBytes, DimsFit;
    var body := Rows.CellsBytes(elems);
    var raw := ArrayBytes(dims, lower, elemType, elems);
    HeaderAt(dims, lower, None in elems, elemType, body);
    ReadI32RoundTrip(|dims|);
    if dims != [] {
      DimsRead(raw, dims, |dims|);
      assert dims[..|dims|] == dims;
    }
  }

  lemma TakeElemIs(s: bytes)
    requires Rows.TakeCell(s).Some?
    ensures TakeElem(s) == Rows.TakeCell(s)
  {
    hide ReadI32;
  }

  lemma {:induction false} TakeElemsAre(s: bytes, n: nat)
    requires Rows.TakeCells(s, n).Some?
    ensures TakeElems(s, n) == Rows.TakeCells(s, n)
  {
    hide TakeElem, Rows.TakeCell;
    if n > 0 {
      TakeElemsAre(s, n - 1);
      TakeElemIs(Rows.TakeCells(s, n - 1).value.1);
    }
  }

  /** The sent form of elements, NULL among them. */
  function Sent(vs: seq<Option<SqlValue>>): (r: seq<Rows.Raw>)
    ensures |r| == |vs|
    ensures forall i :: 0 <= i < |r| ==> r[i] == if vs[i].None? then None else Some(Send(vs[i].value))
  {
    seq(|vs|, i requires 0 <= i < |vs| => if vs[i].None? then None else Some(Send(vs[i].value)))
  }

  ghost predicate Elems(kind: Rows.Kind, vs: seq<Option<SqlValue>>)
  {
    forall i :: 0 <= i < |vs| && vs[i].Some? ==>
      && Sendable(vs[i].value) && KindOf(vs[i].value) == kind && |Send(vs[i].value)| < TWO_31
      && (vs[i].value.SNumeric? ==> vs[i].value.ds == [] || vs[i].value.weight <= 0 || vs[i].value.ds[0] != 0)
  }

  predicate SaysElem(val: Json.Value, v: Option<SqlValue>) { if v.None? then val == Json.Null else Says(val, v.value) }

  lemma ElemSays(kind: Rows.Kind, vs: seq<Option<SqlValue>>, i: nat)
    requires Elems(kind, vs) && i < |vs|
    ensures SaysElem(Rows.CellOf(kind, Sent(vs)[i]), vs[i]) && Rows.NormalCell(kind, Sent(vs)[i])
    ensures Sent(vs)[i].Some? ==> |Sent(vs)[i].value| < TWO_31
  {
    hide Says, Send, Rows.CellOf, KindOf, Rows.NormalCell, Sendable;
    if vs[i].None? {
      OtherCellsSay(kind, []);
      NullIsNormal(kind);
    } else {
      CellSays(vs[i].value);
      SentIsNormal(vs[i].value);
    }
  }

  lemma NullIsNormal(kind: Rows.Kind)
    ensures Rows.NormalCell(kind, None)
  {
  }

  lemma ReaderIs(depth: nat, text: bytes, tree: Tree, close: byte, tail: bytes)
    requires Json.Reads(Reader(depth), text, tree, close) && Json.Ends(tail, close)
    ensures ReadTree(depth, text + tail) == Some((tree, tail))
  {
    hide ReadTree;
    assert Reader(depth)(text + tail) == ReadTree(depth, text + tail);
  }

  /**
   A sent array is written as nested JSON of its shape, and a reader finds at every index path the
   element that stands there in row-major order.
  */
  lemma SentArrayReads(kind: Rows.Kind, vs: seq<Option<SqlValue>>, dims: seq<nat>, lower: seq<int>, elemType: int,
                       path: seq<nat>, close: byte, tail: bytes)
    requires |lower| == |dims| < 0x1000_0000 && DimsFit(dims) && dims != []
    requires |vs| == Product(dims) && Elems(kind, vs) && InShape(dims, path)
    requires Rows.Closer(close) && Json.Ends(tail, close)
    ensures ShapeOf(ArrayBytes(dims, lower, elemType, Sent(vs))) == Shape(dims, Rows.CellsBytes(Sent(vs)))
    ensures TakeElems(Rows.CellsBytes(Sent(vs)), Product(dims)) == Some((Sent(vs), []))
    ensures var t := ReadTree(|dims|, Nest(dims, ElemTexts(kind, Sent(vs))) + tail);
      && t.Some? && t.value.1 == tail
      && At(t.value.0, path).Some? && SaysElem(At(t.value.0, path).value, vs[RowMajor(dims, path)])
  {
    hide ShapeOf, ArrayBytes, TakeElems, Rows.CellsBytes, ReadTree, Nest, At, InShape, Says, Rows.CellOf, Rows.NormalCell,
         Rows.TakeCells, Elems, DimsFit, TreeOf;
    ShapeSent(dims, lower, elemType, Sent(vs));
    forall i | 0 <= i < |vs|
      ensures SaysElem(Rows.CellOf(kind, Sent(vs)[i]), vs[i]) && Rows.NormalCell(kind, Sent(vs)[i])
      ensures Sent(vs)[i].Some? ==> |Sent(vs)[i].value| < TWO_31
    {
      ElemSays(kind, vs, i);
    }
    Rows.TakeCellsOf(Sent(vs), []);
    assert Rows.CellsBytes(Sent(vs)) + [] == Rows.CellsBytes(Sent(vs));
    TakeElemsAre(Rows.CellsBytes(Sent(vs)), |vs|);
    NestReads(dims, kind, Sent(vs), close);
    ReaderIs(|dims|, Nest(dims, ElemTexts(kind, Sent(vs))), TreeOf(dims, ElemValues(kind, Sent(vs))), close, tail);
    TreeAt(dims, ElemValues(kind, Sent(vs)), path);
  }

  // ---- Slices ----------------------------------------------------------------------------------

  /** Go's zero value; that of a time is January 1st of the year 1. */
  predicate IsZero(v: Scan.Value)
  {
    match v
    case VBool(b) => !b
    case VInt(n) => n == 0
    case VString(s) => s == []
    case VBytes(bs) => bs.None?
    case VTime(sec, nsec) => sec == Calendar.UnixDay(1, 1, 1) * 86400 && nsec == 0
    case VNull(inner, valid) => inner == 0 && !valid
    case VPtr(p) => p.None?
  }

  /** A NULL element leaves the zero value of the element type. */
  lemma NullElement(oid: Scan.Oid, target: Scan.Target)
    requires Scan.Supported(oid, target)
    ensures Element(oid, target, None).Some? && IsZero(Element(oid, target, None).value)
    ensures Element(oid, target, None).value == ZeroOf(target)
  {
  }

  ghost predicate SliceElems(oid: Scan.Oid, vs: seq<Option<SqlValue>>)
  {
    forall i :: 0 <= i < |vs| && vs[i].Some? ==>
      Sendable(vs[i].value) && ScanOid(vs[i].value) == Some(oid) && |Send(vs[i].value)| < TWO_31
  }

  predicate ElementShows(target: Scan.Target, field: Scan.Value, v: Option<SqlValue>)
  {
    if v.None? then IsZero(field) else Shows(target, field, ZeroOf(target), v.value)
  }

  lemma ElementSent(oid: Scan.Oid, target: Scan.Target, vs: seq<Option<SqlValue>>, i: nat)
    requires Scan.Supported(oid, target) && SliceElems(oid, vs) && i < |vs|
    ensures Element(oid, target, Sent(vs)[i]).Some?
    ensures ElementShows(target, Element(oid, target, Sent(vs)[i]).value, vs[i])
    ensures Sent(vs)[i].Some? ==> |Sent(vs)[i].value| < TWO_31
  {
    hide Scan.Set, Send, Shows, Scan.Supported, Sendable, IsZero, ZeroOf;
    if vs[i].None? {
      NullElement(oid, target);
    } else {
      FieldShows(vs[i].value, target, ZeroOf(target));
    }
  }

  /** The slice setter finds one dimension of the right length, and every element shows its value. */
  lemma SentSliceReads(oid: Scan.Oid, target: Scan.Target, vs: seq<Option<SqlValue>>, lower: int, elemType: int)
    requires Scan.Supported(oid, target) && SliceElems(oid, vs) && |vs| < TWO_31
    ensures var raw := ArrayBytes([|vs|], [lower], elemType, Sent(vs));
      && |raw| >= 20 && ReadI32(raw[0..4]) == 1 && ReadI32(raw[12..16]) == |vs|
      && Rows.TakeCells(raw[20..], |vs|) == Some((Sent(vs), []))
    ensures var vals := Elements(oid, target, Sent(vs));
      vals.Some? && |vals.value| == |vs| && forall i :: 0 <= i < |vs| ==> ElementShows(target, vals.value[i], vs[i])
  {
    hide HeaderBytes, Rows.CellsBytes, I32, ReadI32, Rows.TakeCells, Element, ElementShows, Scan.Supported, SliceElems;
    forall i | 0 <= i < |vs|
      ensures Element(oid, target, Sent(vs)[i]).Some?
      ensures ElementShows(target, Element(oid, target, Sent(vs)[i]).value, vs[i])
      ensures Sent(vs)[i].Some? ==> |Sent(vs)[i].value| < TWO_31
    {
      ElementSent(oid, target, vs, i);
    }
    var dims, body := [|vs|], Rows.CellsBytes(Sent(vs));
    HeaderAt(dims, [lower], None in Sent(vs), elemType, body);
    assert dims[0] == |vs|;
    ReadI32RoundTrip(1);
    ReadI32RoundTrip(|vs|);
    Rows.TakeCellsOf(Sent(vs), []);
    assert body + [] == body;
  }
}
