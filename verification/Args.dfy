/**
 Bind parameters (pgz/args.go): per-argument format codes and values, in binary where the server
 type and the Go type allow it and in text elsewhere; and a reader of that block.
*/
module Args {
  import opened Bytes
  import opened Rows
  import Scan
  import Wire
  import JsonWriter

  /**
   The parameter types the server may ask for. `OOid` is the type `oid`; `Unknown` stands for every
   other type, to none of which these arguments go in binary.
  */
  datatype Oid = OBool | OInt2 | OInt4 | OInt8 | OOid | OBytea | OText | Unknown

  datatype Arg = Nil | ABool(b: bool) | AInt(kind: Scan.IntKind, v: int) | AString(s: bytes) | ABytes(bs: bytes)

  function OidAt(oids: seq<Oid>, i: nat): Oid { if i < |oids| then oids[i] else Unknown }

  predicate ParamBinary(oid: Oid, a: Arg)
  {
    match oid
    case OBool => a.ABool?
    case OInt2 => a.AInt?
    case OInt4 => a.AInt?
    case OInt8 => a.AInt?
    case OOid => a.AInt?
    case OBytea => a.ABytes?
    case _ => false
  }

  /** toInt64. */
  function ToInt64(v: int): int { Scan.Convert(Scan.Int64, v) }

  function BinaryBytes(oid: Oid, a: Arg): bytes
    requires ParamBinary(oid, a)
  {
    match oid
    case OBool => [if a.b then 1 else 0]
    case OInt2 => I16(ToInt64(a.v))
    case OInt4 => I32(ToInt64(a.v))
    case OOid => I32(ToInt64(a.v))
    case OInt8 => I64(ToInt64(a.v))
    case OBytea => a.bs
    case _ => []
  }

  /** encodeArg: the text form; there is none for the 8- and 16-bit integer types. */
  function TextBytes(a: Arg): Option<bytes>
    requires !a.Nil?
  {
    match a
    case ABool(b) => Some(if b then [0x74] else [0x66])
    case AInt(kind, v) =>
      if kind.Int8? || kind.Int16? || kind.Uint8? || kind.Uint16? then None else Some(IntText(v))
    case AString(s) => Some(s)
    case ABytes(bs) => Some([JsonWriter.SLASH, 0x78] + HexText(bs))
  }

  /** The value sent for an argument; the outer None is an error. */
  function ParamRaw(oid: Oid, a: Arg): Option<Raw>
  {
    if a.Nil? then Some(None)
    else if ParamBinary(oid, a) then Some(Some(BinaryBytes(oid, a)))
    else
      match TextBytes(a)
      case None => None
      case Some(t) => Some(Some(t))
  }

  predicate Encodable(oids: seq<Oid>, args: seq<Arg>)
  {
    forall i :: 0 <= i < |args| ==> ParamRaw(OidAt(oids, i), args[i]).Some?
  }

  function Formats(oids: seq<Oid>, args: seq<Arg>): (r: seq<bool>)
    ensures |r| == |args| && forall i :: 0 <= i < |r| ==> r[i] == ParamBinary(OidAt(oids, i), args[i])
  {
    seq(|args|, i requires 0 <= i < |args| => ParamBinary(OidAt(oids, i), args[i]))
  }

  function Raws(oids: seq<Oid>, args: seq<Arg>): (r: seq<Raw>)
    requires Encodable(oids, args)
    ensures |r| == |args| && forall i :: 0 <= i < |r| ==> Some(r[i]) == ParamRaw(OidAt(oids, i), args[i])
  {
    seq(|args|, i requires 0 <= i < |args| => ParamRaw(OidAt(oids, i), args[i]).value)
  }

  function FormatsBytes(formats: seq<bool>): (s: bytes)
    ensures |s| == 2 * |formats|
  {
    if formats == [] then []
    else FormatsBytes(formats[..|formats| - 1]) + I16(if formats[|formats| - 1] then 1 else 0)
  }

  /** The parameter block of a Bind message. */
  function Block(oids: seq<Oid>, args: seq<Arg>): bytes
    requires Encodable(oids, args)
  {
    I16(|args|) + FormatsBytes(Formats(oids, args)) + (I16(|args|) + CellsBytes(Raws(oids, args)))
  }

  // ---- Writing ---------------------------------------------------------------------

  lemma TimesPow(v: nat, w: nat)
    ensures v * Pow256(w + 1) == 256 * (v * Pow256(w))
  {
    var p := Pow256(w);
    assert v * (256 * p) == 256 * (v * p);
  }

  lemma {:induction false} FromBEConcat(a: bytes, b: bytes)
    ensures FromBE(a + b) == FromBE(a) * Pow256(|b|) + FromBE(b)
  {
    if b == [] {
      assert a + b == a;
    } else {
      var n := |b| - 1;
      assert (a + b)[..|a + b| - 1] == a + b[..n];
      FromBEConcat(a, b[..n]);
      TimesPow(FromBE(a), n);
      hide Pow256;
    }
  }

  lemma EightBytes(hi: nat, lo: nat)
    requires hi < TWO_32 && lo < TWO_32
    ensures ToBE(hi * TWO_32 + lo, 8) == ToBE(hi, 4) + ToBE(lo, 4)
  {
    Pow256Values();
    hide ToBE, FromBE, Pow256;
    var s := ToBE(hi, 4) + ToBE(lo, 4);
    FromToBE(hi, 4);
    FromToBE(lo, 4);
    FromBEConcat(ToBE(hi, 4), ToBE(lo, 4));
    ToFromBE(s);
  }

  lemma HalvesOfInt64(n: int)
    requires IsInt64(n)
    ensures I32(n / TWO_32) + I32(n) == I64(n)
  {
    hide ToBE;
    var hi, lo := (n / TWO_32) % TWO_32, n % TWO_32;
    assert n % TWO_64 == hi * TWO_32 + lo;
    EightBytes(hi, lo);
  }

  /** Length and bytes of a binary value; 64-bit integers go as two halves. */
  method AppendParamBinary(bd: Wire.Builder, oid: Oid, a: Arg)
    requires ParamBinary(oid, a)
    modifies bd.c`writeBuf
    ensures bd.c.writeBuf == old(bd.c.writeBuf) + CellBytes(Some(BinaryBytes(oid, a)))
  {
    hide I16, I32, I64;
    match oid {
      case OBool =>
        bd.Int32(1);
        bd.Bytes([if a.b then 1 else 0]);
      case OInt2 =>
        bd.Int32(2);
        bd.Int16(ToInt64(a.v));
      case OInt4 =>
        bd.Int32(4);
        bd.Int32(ToInt64(a.v));
      case OOid =>
        bd.Int32(4);
        bd.Int32(ToInt64(a.v));
      case OInt8 =>
        var n := ToInt64(a.v);
        HalvesOfInt64(n);
        bd.Int32(8);
        bd.Int32(n / TWO_32);
        bd.Int32(n);
      case OBytea =>
        bd.Int32(|a.bs|);
        bd.Bytes(a.bs);
    }
  }

  lemma FormatsMore(formats: seq<bool>, i: nat)
    requires i < |formats|
    ensures FormatsBytes(formats[..i + 1]) == FormatsBytes(formats[..i]) + I16(if formats[i] then 1 else 0)
  {
    assert formats[..i + 1][..i] == formats[..i];
  }

  /** The values of the first arguments, as long as each can be encoded. */
  function Values(oids: seq<Oid>, args: seq<Arg>, n: nat): Option<bytes>
    requires n <= |args|
  {
    if n == 0 then Some([])
    else
      var front := Values(oids, args, n - 1);
      var raw := ParamRaw(OidAt(oids, n - 1), args[n - 1]);
      if front.None? || raw.None? then None else Some(front.value + CellBytes(raw.value))
  }

  lemma {:induction false} ValuesAre(oids: seq<Oid>, args: seq<Arg>, n: nat)
    requires n <= |args|
    ensures Values(oids, args, n).Some? <==> Encodable(oids, args[..n])
    ensures Encodable(oids, args[..n]) ==> Values(oids, args, n) == Some(CellsBytes(Raws(oids, args[..n])))
  {
    hide ParamRaw, CellBytes, Encodable, Raws;
    if n == 0 {
      assert args[..0] == [];
      NoValues(oids);
    } else {
      ValuesAre(oids, args, n - 1);
      OneMoreValue(oids, args, n - 1);
    }
  }

  lemma NoValues(oids: seq<Oid>)
    ensures Encodable(oids, []) && CellsBytes(Raws(oids, [])) == []
  {
  }

  lemma OneMoreValue(oids: seq<Oid>, args: seq<Arg>, n: nat)
    requires n < |args|
    ensures var raw := ParamRaw(OidAt(oids, n), args[n]);
      && (Encodable(oids, args[..n + 1]) <==> Encodable(oids, args[..n]) && raw.Some?)
      && (Encodable(oids, args[..n + 1]) ==>
            CellsBytes(Raws(oids, args[..n + 1])) == CellsBytes(Raws(oids, args[..n])) + CellBytes(raw.value))
  {
    hide ParamRaw, CellBytes, OidAt;
    assert forall i :: 0 <= i < n ==> args[..n + 1][i] == args[..n][i];
    if Encodable(oids, args[..n]) && ParamRaw(OidAt(oids, n), args[n]).Some? {
      assert Encodable(oids, args[..n + 1]);
    }
    if Encodable(oids, args[..n + 1]) {
      assert forall i :: 0 <= i < n ==> ParamRaw(OidAt(oids, i), args[..n + 1][i]).Some?;
      assert ParamRaw(OidAt(oids, n), args[..n + 1][n]).Some?;
      assert Raws(oids, args[..n + 1])[..n] == Raws(oids, args[..n]);
    }
  }

  lemma ValuesFail(oids: seq<Oid>, args: seq<Arg>, n: nat)
    requires n < |args| && ParamRaw(OidAt(oids, n), args[n]).None?
    ensures !Encodable(oids, args)
  {
  }

  method WriteFormats(bd: Wire.Builder, oids: seq<Oid>, args: seq<Arg>)
    modifies bd.c`writeBuf
    ensures bd.c.writeBuf == old(bd.c.writeBuf) + FormatsBytes(Formats(oids, args))
  {
    hide I16, ParamBinary, FormatsBytes;
    ghost var start := bd.c.writeBuf;
    ghost var formats := Formats(oids, args);
    NoFormats(formats);
    for i := 0 to |args|
      invariant bd.c.writeBuf == start + FormatsBytes(formats[..i])
    {
      FormatsMore(formats, i);
      if ParamBinary(OidAt(oids, i), args[i]) {
        bd.Int16(1);
      } else {
        bd.Int16(0);
      }
    }
    assert formats[..|args|] == formats;
  }

  lemma NoFormats(formats: seq<bool>)
    ensures FormatsBytes(formats[..0]) == []
  {
  }

  method WriteValues(bd: Wire.Builder, oids: seq<Oid>, args: seq<Arg>) returns (ok: bool)
    modifies bd.c`writeBuf
    ensures ok <==> Encodable(oids, args)
    ensures ok ==> bd.c.writeBuf == old(bd.c.writeBuf) + CellsBytes(Raws(oids, args))
  {
    hide CellBytes, ParamRaw, CellsBytes;
    ghost var start := bd.c.writeBuf;
    for i := 0 to |args|
      invariant Values(oids, args, i).Some? && bd.c.writeBuf == start + Values(oids, args, i).value
    {
      var wrote := WriteValue(bd, OidAt(oids, i), args[i]);
      if !wrote {
        ValuesFail(oids, args, i);
        return false;
      }
    }
    ValuesAre(oids, args, |args|);
    assert args[..|args|] == args;
    ok := true;
  }

  /** All formats first, then all values; an argument without a text form stops it half-way. */
  method WriteBindParams(bd: Wire.Builder, oids: seq<Oid>, args: seq<Arg>) returns (ok: bool)
    modifies bd.c`writeBuf
    ensures ok <==> Encodable(oids, args)
    ensures ok ==> bd.c.writeBuf == old(bd.c.writeBuf) + Block(oids, args)
  {
    hide I16, FormatsBytes, CellsBytes, Encodable, Formats, Raws;
    var n := |args|;
    if n == 0 {
      bd.Int16(0);
      bd.Int16(0);
      EmptyBlock(oids, args);
      return true;
    }
    bd.Int16(n);
    WriteFormats(bd, oids, args);
    bd.Int16(n);
    ok := WriteValues(bd, oids, args);
  }

  lemma EmptyBlock(oids: seq<Oid>, args: seq<Arg>)
    requires args == []
    ensures Encodable(oids, args) && Block(oids, args) == I16(0) + I16(0)
  {
  }

  method WriteValue(bd: Wire.Builder, oid: Oid, a: Arg) returns (ok: bool)
    modifies bd.c`writeBuf
    ensures ok <==> ParamRaw(oid, a).Some?
    ensures ok ==> bd.c.writeBuf == old(bd.c.writeBuf) + CellBytes(ParamRaw(oid, a).value)
    ensures !ok ==> bd.c.writeBuf == old(bd.c.writeBuf)
  {
    hide I32, ParamBinary, BinaryBytes, TextBytes;
    ok := true;
    if a.Nil? {
      bd.Int32(-1);
      return;
    }
    if ParamBinary(oid, a) {
      AppendParamBinary(bd, oid, a);
      return;
    }
    var t := TextBytes(a);
    if t.None? {
      return false;
    }
    bd.Int32(|t.value|);
    bd.Bytes(t.value);
  }

  // ---- Reading the block ---------------------------------------------------------------

  function TakeFormats(s: bytes, n: nat): Option<seq<bool>>
    requires |s| >= 2 * n
  {
    if n == 0 then Some([])
    else
      var front :- TakeFormats(s, n - 1);
      var code := ReadI16(s[2 * (n - 1)..2 * n]);
      if code == 0 || code == 1 then Some(front + [code == 1]) else None
  }

  /** The server's reading of the block: which values are binary, and the values. */
  function TakeBlock(s: bytes): Option<(seq<bool>, seq<Raw>, bytes)>
  {
    if |s| < 2 then None
    else
      var n := ReadU16(s[..2]);
      if |s| < 4 + 2 * n then None
      else
        var formats :- TakeFormats(s[2..], n);
        if ReadU16(s[2 + 2 * n..4 + 2 * n]) != n then None
        else
          var (raws, rest) :- TakeCells(s[4 + 2 * n..], n);
          Some((formats, raws, rest))
  }

  lemma ReadU16Of(n: nat)
    requires n < 0x1_0000
    ensures ReadU16(I16(n)) == n
  {
    assert Pow256(2) == 0x1_0000 by { Pow256Values(); }
    assert n % 0x1_0000 == n;
    hide ToBE, FromBE, Pow256;
    FromToBE(n, 2);
  }

  lemma CodeReads(b: bool)
    ensures ReadI16(I16(if b then 1 else 0)) == if b then 1 else 0
  {
    ReadI16RoundTrip(if b then 1 else 0);
  }

  lemma TakeFormatsStep(s: bytes, front: seq<bool>, b: bool)
    requires |s| >= 2 * (|front| + 1) && TakeFormats(s, |front|) == Some(front)
    requires s[2 * |front|..2 * (|front| + 1)] == I16(if b then 1 else 0)
    ensures TakeFormats(s, |front| + 1) == Some(front + [b])
  {
    hide I16, ReadI16;
    CodeReads(b);
  }

  lemma LastFormat(formats: seq<bool>, rest: bytes)
    requires formats != []
    ensures var n := |formats| - 1;
            var s := FormatsBytes(formats) + rest;
      && s == FormatsBytes(formats[..n]) + (I16(if formats[n] then 1 else 0) + rest)
      && s[2 * n..2 * (n + 1)] == I16(if formats[n] then 1 else 0)
  {
    hide I16;
    var n := |formats| - 1;
    var front, code := FormatsBytes(formats[..n]), I16(if formats[n] then 1 else 0);
    assert FormatsBytes(formats) == front + code;
    hide FormatsBytes;
    Middle(front, code, rest);
  }

  lemma Middle(a: bytes, b: bytes, c: bytes)
    ensures (a + b) + c == a + (b + c) && ((a + b) + c)[|a|..|a| + |b|] == b
  {
  }

  lemma {:induction false} TakeFormatsOf(formats: seq<bool>, rest: bytes)
    ensures TakeFormats(FormatsBytes(formats) + rest, |formats|) == Some(formats)
  {
    if formats != [] {
      hide I16, FormatsBytes, TakeFormats;
      var n := |formats| - 1;
      TakeFormatsOf(formats[..n], I16(if formats[n] then 1 else 0) + rest);
      LastFormat(formats, rest);
      TakeFormatsStep(FormatsBytes(formats) + rest, formats[..n], formats[n]);
      assert formats == formats[..n] + [formats[n]];
    }
  }

  /** The server reads back one format and one value an argument, and stops behind the block. */
  lemma BlockRoundTrip(oids: seq<Oid>, args: seq<Arg>, rest: bytes)
    requires Encodable(oids, args) && |args| < 0x1_0000 && Fits(Raws(oids, args))
    ensures TakeBlock(Block(oids, args) + rest) == Some((Formats(oids, args), Raws(oids, args), rest))
  {
    hide I16, FormatsBytes, CellsBytes, ReadU16, TakeCells, TakeFormats, Encodable, Fits;
    var n, formats, raws := |args|, Formats(oids, args), Raws(oids, args);
    var f, v := FormatsBytes(formats), CellsBytes(raws);
    var s := Block(oids, args) + rest;
    ReadU16Of(n);
    TakeFormatsOf(formats, I16(n) + (v + rest));
    TakeCellsOf(raws, rest);
    assert s[..2] == I16(n);
    assert s[2..] == f + (I16(n) + (v + rest));
    assert s[2 + 2 * n..4 + 2 * n] == I16(n);
    assert s[4 + 2 * n..] == v + rest;
  }

  // ---- What the server makes of an integer ---------------------------------------------------

  function Width(oid: Oid): nat
  {
    match oid
    case OInt2 => 2
    case OInt4 => 4
    case OOid => 4
    case OInt8 => 8
    case _ => 0
  }

  function ServerKind(oid: Oid): Scan.IntKind
  {
    match oid
    case OInt2 => Scan.Int16
    case OInt4 => Scan.Int32
    case OOid => Scan.Uint32
    case _ => Scan.Int64
  }

  /** A binary integer as the server reads it: type `oid` is unsigned. */
  function ServerRead(oid: Oid, raw: bytes): int
    requires |raw| == Width(oid) > 0
  {
    if oid.OOid? then Scan.Convert(Scan.Uint32, Scan.ReadInt(raw)) else Scan.ReadInt(raw)
  }

  predicate IntegerOid(oid: Oid) { oid.OInt2? || oid.OInt4? || oid.OInt8? || oid.OOid? }

  /** The integer a parameter value stands for. */
  function ServerInt(oid: Oid, binary: bool, raw: bytes): Option<int>
  {
    if binary then
      if |raw| == Width(oid) && Width(oid) > 0 then Some(ServerRead(oid, raw)) else None
    else
      var (v, _, rest) :- ReadInt(raw);
      if rest == [] then Some(v) else None
  }

  lemma BinaryInt(oid: Oid, kind: Scan.IntKind, v: int)
    requires IntegerOid(oid)
    ensures |BinaryBytes(oid, AInt(kind, v))| == Width(oid)
    ensures ServerRead(oid, BinaryBytes(oid, AInt(kind, v))) == Scan.Convert(ServerKind(oid), ToInt64(v))
  {
    var n := ToInt64(v);
    Wraps(n);
    match oid
    case OInt2 => ReadI16RoundTrip(Scan.Convert(Scan.Int16, n));
    case OInt4 => ReadI32RoundTrip(Scan.Convert(Scan.Int32, n));
    case OInt8 => ReadI64RoundTrip(Scan.Convert(Scan.Int64, n));
    case OOid =>
      ReadI32RoundTrip(Scan.Convert(Scan.Int32, n));
      SameLowBits(n);
  }

  lemma SameLowBits(n: int)
    ensures Scan.Convert(Scan.Uint32, Scan.Convert(Scan.Int32, n)) == Scan.Convert(Scan.Uint32, n)
  {
    assert Scan.Convert(Scan.Int32, n) % TWO_32 == n % TWO_32;
  }

  /** Writing the low bytes is converting first. */
  lemma Wraps(n: int)
    ensures I16(n) == I16(Scan.Convert(Scan.Int16, n))
    ensures I32(n) == I32(Scan.Convert(Scan.Int32, n))
    ensures I64(n) == I64(Scan.Convert(Scan.Int64, n))
  {
    assert Scan.Convert(Scan.Int16, n) % 0x1_0000 == n % 0x1_0000;
    assert Scan.Convert(Scan.Int32, n) % TWO_32 == n % TWO_32;
    assert Scan.Convert(Scan.Int64, n) % TWO_64 == n % TWO_64;
  }

  lemma TwiceExact(kind: Scan.IntKind, v: int)
    requires kind.Int16? || kind.Int32? || kind.Int64? || kind.Uint32?
    ensures Scan.Convert(kind, ToInt64(v)) == v <==> Scan.FitsKind(kind, v)
  {
    Scan.ConvertExactIff(Scan.Int64, v);
    Scan.ConvertExactIff(kind, ToInt64(v));
    if Scan.Convert(kind, ToInt64(v)) == v {
      ConvertFits(kind, ToInt64(v));
    }
  }

  lemma ConvertFits(kind: Scan.IntKind, v: int)
    ensures Scan.FitsKind(kind, Scan.Convert(kind, v))
  {
  }

  /**
   An integer argument reaches the server unchanged exactly when it goes as text or fits the
   server's type; nothing is reported when it does not fit.
  */
  lemma IntParamExactIff(oid: Oid, kind: Scan.IntKind, v: int)
    requires ParamRaw(oid, AInt(kind, v)).Some?
    ensures ParamRaw(oid, AInt(kind, v)).value.Some?
    ensures ServerInt(oid, ParamBinary(oid, AInt(kind, v)), ParamRaw(oid, AInt(kind, v)).value.value) == Some(v)
       <==> !ParamBinary(oid, AInt(kind, v)) || Scan.FitsKind(ServerKind(oid), v)
  {
    hide Scan.Convert, IntText, BinaryBytes, Scan.ReadInt, ReadInt, Scan.FitsKind;
    if ParamBinary(oid, AInt(kind, v)) {
      BinaryInt(oid, kind, v);
      TwiceExact(ServerKind(oid), v);
    } else {
      ReadIntText(v, []);
      assert IntText(v) + [] == IntText(v);
    }
  }

  /** The 8- and 16-bit integers have no text form: they can only go to an integer parameter. */
  lemma IntEncodableIff(oid: Oid, kind: Scan.IntKind, v: int)
    ensures ParamRaw(oid, AInt(kind, v)).None?
       <==> !IntegerOid(oid) && (kind.Int8? || kind.Int16? || kind.Uint8? || kind.Uint16?)
  {
  }
}
