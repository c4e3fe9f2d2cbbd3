/**
 Column names: RowDescription messages and the headers of the columnar and TOON forms
 (internal/rows/plan.go).
*/
module Headers {
  import opened Bytes
  import opened JsonWriter
  import opened Json

  // ---- RowDescription ------------------------------------------------------------

  datatype Field = Field(name: bytes, tableOid: nat, attrNum: int, typeOid: nat, typeLen: int, typeMod: int, format: int)

  /** indexZero. */
  method IndexZero(b: bytes) returns (k: int)
    ensures k == -1 <==> 0 !in b
    ensures k != -1 ==> 0 <= k < |b| && b[k] == 0 && 0 !in b[..k]
  {
    for i := 0 to |b|
      invariant 0 !in b[..i]
    {
      if b[i] == 0 {
        return i;
      }
      assert b[..i + 1] == b[..i] + [b[i]];
    }
    assert b[..|b|] == b;
    k := -1;
  }

  /** The name before the first zero byte, and what follows that byte. */
  function TakeName(s: bytes): (r: Option<(bytes, bytes)>)
    ensures r.Some? <==> 0 in s
    ensures r.Some? ==> s == r.value.0 + ([0] + r.value.1) && 0 !in r.value.0
  {
    if s == [] then None
    else if s[0] == 0 then Some(([], s[1..]))
    else
      var (name, rest) :- TakeName(s[1..]);
      Some(([s[0]] + name, rest))
  }

  lemma {:induction false} TakeNameAt(s: bytes, k: nat)
    requires k < |s| && s[k] == 0 && 0 !in s[..k]
    ensures TakeName(s) == Some((s[..k], s[k + 1..]))
  {
    if k > 0 {
      assert s[..k][0] == s[0];
      assert s[1..][..k - 1] == s[..k][1..];
      TakeNameAt(s[1..], k - 1);
      assert s[..k] == [s[0]] + s[1..][..k - 1];
      assert s[1..][k..] == s[k + 1..];
    } else {
      assert s[..0] == [];
    }
  }

  function Descriptor(name: bytes, d: bytes): Field
    requires |d| >= 18
  {
    Field(name, ReadU32(d[0..4]), ReadI16(d[4..6]), ReadU32(d[6..10]), ReadI16(d[10..12]), ReadI32(d[12..16]),
          ReadI16(d[16..18]))
  }

  function TakeField(s: bytes): Option<(Field, bytes)>
  {
    var (name, d) :- TakeName(s);
    if |d| < 18 then None else Some((Descriptor(name, d), d[18..]))
  }

  function TakeFields(s: bytes, n: nat): (r: Option<(seq<Field>, bytes)>)
    ensures r.Some? ==> |r.value.0| == n
  {
    if n == 0 then Some(([], s))
    else
      var (fields, rest) :- TakeFields(s, n - 1);
      var (field, rest') :- TakeField(rest);
      Some((fields + [field], rest'))
  }

  function DecodeFields(body: bytes): Option<seq<Field>>
  {
    if |body| < 2 || ReadI16(body[..2]) < 0 then None
    else
      var (fields, _) :- TakeFields(body[2..], ReadI16(body[..2]));
      Some(fields)
  }

  lemma {:induction false} TakeFieldsFails(s: bytes, i: nat, n: nat)
    requires i <= n && TakeFields(s, i).None?
    ensures TakeFields(s, n).None?
  {
    hide TakeField;
    if i < n {
      TakeFieldsFails(s, i, n - 1);
    }
  }

  method ParseRowDescription(body0: bytes) returns (r: Option<seq<Field>>)
    ensures r == DecodeFields(body0)
  {
    hide Descriptor, TakeName;
    if |body0| < 2 {
      return None;
    }
    var n := ReadI16(body0[..2]);
    if n < 0 {
      return None;
    }
    var body := body0[2..];
    var cols: seq<Field> := [];
    for i := 0 to n
      invariant TakeFields(body0[2..], i) == Some((cols, body))
    {
      var end := IndexZero(body);
      if end < 0 {
        TakeFieldsFails(body0[2..], i + 1, n);
        return None;
      }
      TakeNameAt(body, end);
      var name := body[..end];
      body := body[end + 1..];
      if |body| < 18 {
        TakeFieldsFails(body0[2..], i + 1, n);
        return None;
      }
      cols := cols + [Descriptor(name, body)];
      body := body[18..];
    }
    r := Some(cols);
  }

  predicate FieldFits(f: Field)
  {
    && 0 !in f.name && f.tableOid < TWO_32 && f.typeOid < TWO_32
    && IsInt16(f.attrNum) && IsInt16(f.typeLen) && IsInt32(f.typeMod) && IsInt16(f.format)
  }

  /** The 18 bytes after a field's name. */
  function DescriptorBytes(f: Field): (d: bytes)
    requires FieldFits(f)
    ensures |d| == 18
  {
    ToBE(f.tableOid, 4) + I16(f.attrNum) + ToBE(f.typeOid, 4) + I16(f.typeLen) + I32(f.typeMod) + I16(f.format)
  }

  function FieldBytes(f: Field): bytes
    requires FieldFits(f)
  {
    f.name + ([0] + DescriptorBytes(f))
  }

  predicate FieldsFit(fields: seq<Field>) { forall i :: 0 <= i < |fields| ==> FieldFits(fields[i]) }

  function FieldsBytes(fields: seq<Field>): bytes
    requires FieldsFit(fields)
  {
    if fields == [] then []
    else
      var n := |fields| - 1;
      assert forall i :: 0 <= i < n ==> fields[..n][i] == fields[i];
      FieldsBytes(fields[..n]) + FieldBytes(fields[n])
  }

  lemma DescriptorOf(f: Field, rest: bytes)
    requires FieldFits(f)
    ensures Descriptor(f.name, DescriptorBytes(f) + rest) == f
  {
    hide ReadU32, ReadI16, ReadI32, ToBE, I16, I32;
    var d := DescriptorBytes(f) + rest;
    ReadU32RoundTrip(f.tableOid);
    ReadU32RoundTrip(f.typeOid);
    ReadI16RoundTrip(f.attrNum);
    ReadI16RoundTrip(f.typeLen);
    ReadI32RoundTrip(f.typeMod);
    ReadI16RoundTrip(f.format);
    assert d[0..4] == ToBE(f.tableOid, 4) && d[4..6] == I16(f.attrNum) && d[6..10] == ToBE(f.typeOid, 4);
    assert d[10..12] == I16(f.typeLen) && d[12..16] == I32(f.typeMod) && d[16..18] == I16(f.format);
  }

  lemma TakeFieldOf(f: Field, rest: bytes)
    requires FieldFits(f)
    ensures TakeField(FieldBytes(f) + rest) == Some((f, rest))
  {
    hide Descriptor, DescriptorBytes;
    var s := FieldBytes(f) + rest;
    var k := |f.name|;
    assert s[..k] == f.name && s[k] == 0 && s[k + 1..] == DescriptorBytes(f) + rest;
    TakeNameAt(s, k);
    DescriptorOf(f, rest);
    assert (DescriptorBytes(f) + rest)[18..] == rest;
  }

  lemma TakeFieldsStep(s: bytes, fields: seq<Field>, f: Field, rest: bytes, after: bytes)
    requires TakeFields(s, |fields|) == Some((fields, rest)) && TakeField(rest) == Some((f, after))
    ensures TakeFields(s, |fields| + 1) == Some((fields + [f], after))
  {
    hide TakeField;
  }

  lemma FrontFits(fields: seq<Field>)
    requires FieldsFit(fields) && fields != []
    ensures FieldsFit(fields[..|fields| - 1]) && FieldFits(fields[|fields| - 1])
  {
  }

  lemma LastField(fields: seq<Field>, rest: bytes)
    requires FieldsFit(fields) && fields != []
    ensures FieldsFit(fields[..|fields| - 1])
    ensures FieldsBytes(fields) + rest
         == FieldsBytes(fields[..|fields| - 1]) + (FieldBytes(fields[|fields| - 1]) + rest)
  {
    hide FieldBytes, FieldFits;
    FrontFits(fields);
  }

  lemma TakeLastField(fields: seq<Field>, rest: bytes)
    requires FieldsFit(fields) && fields != [] && FieldsFit(fields[..|fields| - 1])
    requires var front, tail := fields[..|fields| - 1], FieldBytes(fields[|fields| - 1]) + rest;
             TakeFields(FieldsBytes(front) + tail, |front|) == Some((front, tail))
    ensures TakeFields(FieldsBytes(fields) + rest, |fields|) == Some((fields, rest))
  {
    hide TakeField, FieldBytes, TakeFields, FieldsBytes;
    var n := |fields| - 1;
    LastField(fields, rest);
    TakeFieldOf(fields[n], rest);
    TakeFieldsStep(FieldsBytes(fields) + rest, fields[..n], fields[n], FieldBytes(fields[n]) + rest, rest);
    assert fields == fields[..n] + [fields[n]];
  }

  lemma {:induction false} TakeFieldsOf(fields: seq<Field>, rest: bytes)
    requires FieldsFit(fields)
    ensures TakeFields(FieldsBytes(fields) + rest, |fields|) == Some((fields, rest))
  {
    if fields == [] {
      assert FieldsBytes(fields) + rest == rest;
    } else {
      hide FieldBytes, TakeFields, FieldsBytes, FieldFits;
      FrontFits(fields);
      TakeFieldsOf(fields[..|fields| - 1], FieldBytes(fields[|fields| - 1]) + rest);
      TakeLastField(fields, rest);
    }
  }

  lemma U32OfRead(s: bytes)
    requires |s| == 4
    ensures ReadU32(s) < TWO_32 && ToBE(ReadU32(s), 4) == s
  {
    Pow256Values();
    FromBEBound(s);
    ToFromBE(s);
  }

  lemma SignedReads(s: bytes)
    requires |s| == 2 || |s| == 4
    ensures |s| == 2 ==> IsInt16(ReadI16(s)) && I16(ReadI16(s)) == s
    ensures |s| == 4 ==> IsInt32(ReadI32(s)) && I32(ReadI32(s)) == s
  {
    Pow256Values();
    FromBEBound(s);
    if |s| == 2 {
      I16OfRead(s);
    } else {
      I32OfRead(s);
    }
  }

  lemma DescriptorIs(name: bytes, d: bytes)
    requires |d| >= 18 && 0 !in name
    ensures FieldFits(Descriptor(name, d)) && DescriptorBytes(Descriptor(name, d)) == d[..18]
  {
    hide ReadU32, ReadI16, ReadI32, ToBE, I16, I32;
    U32OfRead(d[0..4]);
    SignedReads(d[4..6]);
    U32OfRead(d[6..10]);
    SignedReads(d[10..12]);
    SignedReads(d[12..16]);
    SignedReads(d[16..18]);
  }

  lemma TakeFieldIs(s: bytes)
    requires TakeField(s).Some?
    ensures var (f, rest) := TakeField(s).value; FieldFits(f) && s == FieldBytes(f) + rest
  {
    hide TakeName, Descriptor, DescriptorBytes, FieldFits;
    var (name, d) := TakeName(s).value;
    DescriptorIs(name, d);
    assert Descriptor(name, d).name == name by { NameOfDescriptor(name, d); }
    assert d == d[..18] + d[18..];
  }

  lemma NameOfDescriptor(name: bytes, d: bytes)
    requires |d| >= 18
    ensures Descriptor(name, d).name == name
  {
  }

  lemma FieldsMore(fields: seq<Field>, f: Field)
    requires FieldsFit(fields) && FieldFits(f)
    ensures FieldsFit(fields + [f]) && FieldsBytes(fields + [f]) == FieldsBytes(fields) + FieldBytes(f)
  {
    hide FieldFits, FieldBytes;
    assert (fields + [f])[..|fields|] == fields;
  }

  lemma {:induction false} TakeFieldsIs(s: bytes, n: nat)
    requires TakeFields(s, n).Some?
    ensures var (fields, rest) := TakeFields(s, n).value; FieldsFit(fields) && s == FieldsBytes(fields) + rest
  {
    if n > 0 {
      hide TakeField, FieldFits, FieldBytes;
      TakeFieldsIs(s, n - 1);
      var (front, tail) := TakeFields(s, n - 1).value;
      TakeFieldIs(tail);
      var (f, rest) := TakeField(tail).value;
      FieldsMore(front, f);
      Assoc(FieldsBytes(front), FieldBytes(f), rest);
    }
  }

  lemma FieldsOnly(body: bytes)
    requires DecodeFields(body).Some?
    ensures var fields := DecodeFields(body).value;
            FieldsFit(fields) && |fields| < 0x8000 && I16(|fields|) + FieldsBytes(fields) <= body
  {
    hide I16, ReadI16, TakeFields, FieldsBytes, FieldsFit;
    var n := ReadI16(body[..2]);
    SignedReads(body[..2]);
    TakeFieldsIs(body[2..], n);
    var (fields, rest) := TakeFields(body[2..], n).value;
    assert body == body[..2] + (FieldsBytes(fields) + rest);
    assert body == (I16(n) + FieldsBytes(fields)) + rest;
  }

  /** The columns a server describes are the columns the plan gets, whatever stands behind them. */
  lemma RowDescriptionRoundTrip(fields: seq<Field>, rest: bytes)
    requires FieldsFit(fields) && |fields| < 0x8000
    ensures DecodeFields(I16(|fields|) + FieldsBytes(fields) + rest) == Some(fields)
  {
    hide I16, ReadI16, TakeFields, FieldsBytes, FieldsFit;
    var b := I16(|fields|) + FieldsBytes(fields) + rest;
    ReadI16RoundTrip(|fields|);
    assert b[..2] == I16(|fields|) && b[2..] == FieldsBytes(fields) + rest;
    TakeFieldsOf(fields, rest);
  }

  /** A RowDescription is accepted exactly when it is a list of fields, perhaps with more bytes behind it. */
  lemma DecodeFieldsIff(body: bytes, fields: seq<Field>)
    ensures DecodeFields(body) == Some(fields)
       <==> FieldsFit(fields) && |fields| < 0x8000 && I16(|fields|) + FieldsBytes(fields) <= body
  {
    hide I16, DecodeFields, FieldsBytes, FieldsFit;
    if DecodeFields(body) == Some(fields) {
      FieldsOnly(body);
    }
    if FieldsFit(fields) && |fields| < 0x8000 && I16(|fields|) + FieldsBytes(fields) <= body {
      RowDescriptionRoundTrip(fields, body[|I16(|fields|) + FieldsBytes(fields)|..]);
      assert body == I16(|fields|) + FieldsBytes(fields) + body[|I16(|fields|) + FieldsBytes(fields)|..];
    }
  }

  // ---- The headers of the columnar and TOON forms ---------------------------------------

  /** The bytes that make a TOON column name unreadable without quotes. */
  predicate Special(c: byte)
  {
    || c <= 0x20 || c == COMMA || c == QUOTE || c == SLASH
    || c == OPEN_BRACE || c == CLOSE_BRACE || c == OPEN_BRACKET || c == CLOSE_BRACKET
  }

  predicate NeedsQuote(s: bytes) { s == [] || exists i :: 0 <= i < |s| && Special(s[i]) }

  /** A name goes bare exactly if it holds something, and none of these characters. */
  lemma BareIff(name: bytes)
    ensures !NeedsQuote(name) <==>
      name != [] && forall i :: 0 <= i < |name| ==> name[i] > 0x20 && name[i] !in Ascii(",\"\\{}[]")
  {
    var marks := Ascii(",\"\\{}[]");
    assert marks == [COMMA, QUOTE, SLASH, OPEN_BRACE, CLOSE_BRACE, OPEN_BRACKET, CLOSE_BRACKET];
    assert forall c: byte :: Special(c) <==> c <= 0x20 || c in marks;
  }

  method NameNeedsQuote(s: bytes) returns (b: bool)
    ensures b <==> NeedsQuote(s)
  {
    if s == [] {
      return true;
    }
    for i := 0 to |s|
      invariant forall k :: 0 <= k < i ==> !Special(s[k])
    {
      if Special(s[i]) {
        return true;
      }
    }
    b := false;
  }

  function ToonName(name: bytes): bytes { if NeedsQuote(name) then Quoted(name) else name }

  function Strings(names: seq<bytes>): (r: seq<bytes>)
    ensures |r| == |names| && forall i :: 0 <= i < |r| ==> r[i] == Quoted(names[i])
  {
    seq(|names|, i requires 0 <= i < |names| => Quoted(names[i]))
  }

  function ToonNames(names: seq<bytes>): (r: seq<bytes>)
    ensures |r| == |names| && forall i :: 0 <= i < |r| ==> r[i] == ToonName(names[i])
  {
    seq(|names|, i requires 0 <= i < |names| => ToonName(names[i]))
  }

  /** {"columns":[ */
  const COLUMNS_OPEN: bytes := [0x7B, 0x22, 0x63, 0x6F, 0x6C, 0x75, 0x6D, 0x6E, 0x73, 0x22, 0x3A, 0x5B]
  /** ,"rows":[ */
  const ROWS_OPEN: bytes := [0x2C, 0x22, 0x72, 0x6F, 0x77, 0x73, 0x22, 0x3A, 0x5B]
  /** [?]{ */
  const TOON_OPEN: bytes := [0x5B, 0x3F, 0x5D, 0x7B]

  function ColumnsHeader(names: seq<bytes>): bytes
  {
    COLUMNS_OPEN + (Joined(Strings(names)) + ([CLOSE_BRACKET] + ROWS_OPEN))
  }

  function ToonHeader(names: seq<bytes>): bytes
  {
    TOON_OPEN + (Joined(ToonNames(names)) + ([CLOSE_BRACE] + [NEWLINE]))
  }

  lemma JoinedPrefix(texts: seq<bytes>, i: nat)
    requires i < |texts|
    ensures Joined(texts[..i + 1]) == Joined(texts[..i]) + ((if i > 0 then [COMMA] else []) + texts[i])
  {
    assert texts[..i + 1][..i] == texts[..i];
  }

  method BuildColumnsHeader(names: seq<bytes>) returns (buf: bytes)
    ensures buf == ColumnsHeader(names)
  {
    hide Joined, Quoted;
    ghost var texts := Strings(names);
    buf := COLUMNS_OPEN;
    JoinedEmpty(texts[..0]);
    for i := 0 to |names|
      invariant buf == COLUMNS_OPEN + Joined(texts[..i])
    {
      JoinedPrefix(texts, i);
      if i > 0 {
        buf := buf + [COMMA];
      }
      buf := buf + Quoted(names[i]);
    }
    assert texts[..|names|] == texts;
    buf := buf + ([CLOSE_BRACKET] + ROWS_OPEN);
  }

  method BuildTOONHeader(names: seq<bytes>) returns (buf: bytes)
    ensures buf == ToonHeader(names)
  {
    hide Joined, Quoted, NeedsQuote;
    ghost var texts := ToonNames(names);
    buf := TOON_OPEN;
    JoinedEmpty(texts[..0]);
    for i := 0 to |names|
      invariant buf == TOON_OPEN + Joined(texts[..i])
    {
      JoinedPrefix(texts, i);
      if i > 0 {
        buf := buf + [COMMA];
      }
      var quoted := NameNeedsQuote(names[i]);
      if quoted {
        buf := buf + Quoted(names[i]);
      } else {
        buf := buf + names[i];
      }
    }
    assert texts[..|names|] == texts;
    buf := buf + [CLOSE_BRACE, NEWLINE];
  }

  lemma JoinedEmpty(texts: seq<bytes>)
    requires texts == []
    ensures Joined(texts) == []
  {
  }

  // ---- Reading the headers back ------------------------------------------------------------

  function Bare(s: bytes): (k: nat)
    ensures k <= |s|
  {
    if s == [] || Special(s[0]) then 0 else 1 + Bare(s[1..])
  }

  function ReadToonName(s: bytes): Option<(bytes, bytes)>
  {
    if s != [] && s[0] == QUOTE then ReadString(s)
    else if Bare(s) == 0 then None
    else Some((s[..Bare(s)], s[Bare(s)..]))
  }

  function After(prefix: bytes, s: bytes): Option<bytes> { if prefix <= s then Some(s[|prefix|..]) else None }

  lemma AfterOf(prefix: bytes, rest: bytes)
    ensures After(prefix, prefix + rest) == Some(rest)
  {
  }

  function ReadToonHeader(s: bytes): Option<(seq<bytes>, bytes)>
  {
    var s1 :- After(Ascii("[?]{"), s);
    var (names, s2) :- ReadList(ReadToonName, s1, CLOSE_BRACE);
    var rest :- Expect(s2, NEWLINE);
    Some((names, rest))
  }

  /** The name of an object member with its colon, if it is `key`. */
  function ReadKey(key: bytes, s: bytes): Option<bytes>
  {
    var (name, s1) :- ReadString(s);
    if name == key then Expect(s1, COLON) else None
  }

  /** A JSON object whose first member is the list of names, up to the opening of the list of rows. */
  function ReadColumnsHeader(s: bytes): Option<(seq<bytes>, bytes)>
  {
    var s1 :- Expect(s, OPEN_BRACE);
    var s2 :- ReadKey(Ascii("columns"), s1);
    var s3 :- Expect(s2, OPEN_BRACKET);
    var (names, s4) :- ReadList(ReadString, s3, CLOSE_BRACKET);
    var s5 :- Expect(s4, COMMA);
    var s6 :- ReadKey(Ascii("rows"), s5);
    var rest :- Expect(s6, OPEN_BRACKET);
    Some((names, rest))
  }

  lemma {:induction false} PlainBody(s: bytes)
    requires forall i :: 0 <= i < |s| ==> !NeedsEscape(s[i])
    ensures EscapeBody(s) == s
  {
    if s != [] {
      PlainBody(s[..|s| - 1]);
      assert s == s[..|s| - 1] + [s[|s| - 1]];
    }
  }

  lemma ReadKeyOf(key: bytes, rest: bytes)
    ensures ReadKey(key, Quoted(key) + ([COLON] + rest)) == Some(rest)
  {
    hide ReadString, Quoted;
    ReadStringOf(key, [COLON] + rest);
    ExpectOf(COLON, rest);
  }

  /** The fixed parts are JSON for two members with these names, and the opening of a TOON table. */
  lemma OpeningsAre()
    ensures COLUMNS_OPEN == [OPEN_BRACE] + (Quoted(Ascii("columns")) + ([COLON] + [OPEN_BRACKET]))
    ensures ROWS_OPEN == [COMMA] + (Quoted(Ascii("rows")) + ([COLON] + [OPEN_BRACKET]))
    ensures TOON_OPEN == Ascii("[?]{")
  {
    PlainBody(Ascii("columns"));
    PlainBody(Ascii("rows"));
  }

  lemma RowsOpenReads(rest: bytes)
    ensures var s1 := Expect(ROWS_OPEN + rest, COMMA);
            s1.Some? && ReadKey(Ascii("rows"), s1.value) == Some([OPEN_BRACKET] + rest)
  {
    hide ReadKey, Quoted;
    OpeningsAre();
    var s1 := Quoted(Ascii("rows")) + ([COLON] + ([OPEN_BRACKET] + rest));
    ExpectOf(COMMA, s1);
    ReadKeyOf(Ascii("rows"), [OPEN_BRACKET] + rest);
    assert ROWS_OPEN + rest == [COMMA] + s1;
  }

  lemma ColumnsOpenReads(rest: bytes)
    ensures var s1 := Expect(COLUMNS_OPEN + rest, OPEN_BRACE);
            s1.Some? && ReadKey(Ascii("columns"), s1.value) == Some([OPEN_BRACKET] + rest)
  {
    hide ReadKey, Quoted;
    OpeningsAre();
    var s1 := Quoted(Ascii("columns")) + ([COLON] + ([OPEN_BRACKET] + rest));
    ExpectOf(OPEN_BRACE, s1);
    ReadKeyOf(Ascii("columns"), [OPEN_BRACKET] + rest);
    assert COLUMNS_OPEN + rest == [OPEN_BRACE] + s1;
  }

  lemma {:induction false} BareOf(name: bytes, tail: bytes)
    requires forall i :: 0 <= i < |name| ==> !Special(name[i])
    requires tail != [] && Special(tail[0])
    ensures Bare(name + tail) == |name|
  {
    if name == [] {
      assert name + tail == tail;
    } else {
      assert (name + tail)[1..] == name[1..] + tail;
      BareOf(name[1..], tail);
    }
  }

  lemma ReadsToonName(name: bytes)
    ensures Reads(ReadToonName, ToonName(name), name, CLOSE_BRACE)
  {
    hide Bare, ReadString, Quoted;
    QuoteFirst(name);
    forall tail | Ends(tail, CLOSE_BRACE)
      ensures ReadToonName(ToonName(name) + tail) == Some((name, tail))
    {
      ReadToonNameOf(name, tail);
    }
    if !NeedsQuote(name) {
      assert !Special(name[0]);
    } else {
      QuotedNonEmpty(name);
    }
  }

  lemma QuotedNonEmpty(s: bytes)
    ensures Quoted(s) != []
  {
  }

  lemma ReadToonNameOf(name: bytes, tail: bytes)
    requires Ends(tail, CLOSE_BRACE)
    ensures ReadToonName(ToonName(name) + tail) == Some((name, tail))
  {
    hide Bare, ReadString, Quoted;
    var s := ToonName(name) + tail;
    if NeedsQuote(name) {
      QuotedNonEmpty(name);
      QuoteFirst(name);
      ReadStringOf(name, tail);
      assert s[0] == QUOTE;
    } else {
      BareOf(name, tail);
      assert s[0] == name[0] && !Special(name[0]);
      assert s[..|name|] == name && s[|name|..] == tail;
    }
  }

  /** The TOON header reads back to the list of column names, whatever bytes they hold. */
  lemma ToonHeaderRoundTrip(names: seq<bytes>, rest: bytes)
    ensures ReadToonHeader(ToonHeader(names) + rest) == Some((names, rest))
  {
    hide ToonName, ReadToonName, ReadList, Joined, Reads, After;
    forall i | 0 <= i < |names|
      ensures Reads(ReadToonName, ToonNames(names)[i], names[i], CLOSE_BRACE)
    {
      ReadsToonName(names[i]);
    }
    ReadListOf(ReadToonName, ToonNames(names), names, CLOSE_BRACE, [NEWLINE] + rest);
    var t := Joined(ToonNames(names)) + ([CLOSE_BRACE] + ([NEWLINE] + rest));
    OpeningsAre();
    AfterOf(TOON_OPEN, t);
    ExpectOf(NEWLINE, rest);
    assert ToonHeader(names) + rest == TOON_OPEN + t;
  }

  lemma ReadsString(name: bytes)
    ensures Reads(ReadString, Quoted(name), name, CLOSE_BRACKET)
  {
    hide ReadString, Quoted;
    QuotedNonEmpty(name);
    QuoteFirst(name);
    forall tail | Ends(tail, CLOSE_BRACKET)
      ensures ReadString(Quoted(name) + tail) == Some((name, tail))
    {
      ReadStringOf(name, tail);
    }
  }

  /** Any JSON reader that knows the two member names gets the column names, and stops at the rows. */
  lemma ColumnsHeaderRoundTrip(names: seq<bytes>, rest: bytes)
    ensures ReadColumnsHeader(ColumnsHeader(names) + rest) == Some((names, rest))
  {
    hide Quoted, ReadString, ReadList, Joined, Reads, ReadKey;
    forall i | 0 <= i < |names|
      ensures Reads(ReadString, Strings(names)[i], names[i], CLOSE_BRACKET)
    {
      ReadsString(names[i]);
    }
    ReadListOf(ReadString, Strings(names), names, CLOSE_BRACKET, ROWS_OPEN + rest);
    var t := Joined(Strings(names)) + ([CLOSE_BRACKET] + (ROWS_OPEN + rest));
    ColumnsOpenReads(t);
    RowsOpenReads(rest);
    ExpectOf(OPEN_BRACKET, t);
    ExpectOf(OPEN_BRACKET, rest);
    assert ColumnsHeader(names) + rest == COLUMNS_OPEN + t;
  }
}
