/**
 The four response forms of a query (pgz/query.go): what a run of rows must look like as one
 document, and readers that take a document apart again.
*/
module Documents {
  import opened Bytes
  import opened Json
  import opened Rows
  import Headers

  datatype Mode = ModeArray | ModeNDJSON | ModeColumnar | ModeTOON

  /** One row as received: the plan in force and the decoded cells. */
  datatype Row = Row(plan: Plan, cells: seq<Raw>)

  predicate ValidRow(row: Row) { |row.plan| == |row.cells| }

  predicate ValidRows(rows: seq<Row>) { forall i :: 0 <= i < |rows| ==> ValidRow(rows[i]) }

  function Names(plan: Plan): (r: seq<bytes>)
    ensures |r| == |plan| && forall i :: 0 <= i < |r| ==> r[i] == plan[i].name
  {
    seq(|plan|, i requires 0 <= i < |plan| => plan[i].name)
  }

  function Header(mode: Mode, plan: Plan): bytes
  {
    match mode
    case ModeArray => [OPEN_BRACKET]
    case ModeNDJSON => []
    case ModeColumnar => Headers.ColumnsHeader(Names(plan))
    case ModeTOON => Headers.ToonHeader(Names(plan))
  }

  function Footer(mode: Mode): bytes
  {
    match mode
    case ModeArray => [CLOSE_BRACKET]
    case ModeColumnar => [CLOSE_BRACKET, CLOSE_BRACE]
    case _ => []
  }

  /** Row number `index` as it stands in the document, with its separator. */
  function RowText(mode: Mode, row: Row, index: nat): bytes
    requires ValidRow(row)
  {
    var comma := if index > 0 then [COMMA] else [];
    match mode
    case ModeArray => comma + ObjectText(row.plan, row.cells)
    case ModeNDJSON => ObjectText(row.plan, row.cells) + [NEWLINE]
    case ModeColumnar => comma + ArrayText(row.plan, row.cells)
    case ModeTOON => ToonText(row.plan, row.cells)
  }

  function RowsText(mode: Mode, rows: seq<Row>): bytes
    requires ValidRows(rows)
  {
    if rows == [] then []
    else
      var n := |rows| - 1;
      assert forall i :: 0 <= i < n ==> rows[..n][i] == rows[i];
      RowsText(mode, rows[..n]) + RowText(mode, rows[n], n)
  }

  /** The header belongs to the first row's plan, or to `plan` when there are no rows. */
  function HeaderOf(mode: Mode, plan: Plan, rows: seq<Row>): bytes
  {
    Header(mode, if rows == [] then plan else rows[0].plan)
  }

  /** What may have been written before the end is known: nothing, or a header and whole rows. */
  function Body(mode: Mode, rows: seq<Row>): bytes
    requires ValidRows(rows)
  {
    if rows == [] then [] else HeaderOf(mode, [], rows) + RowsText(mode, rows)
  }

  function Document(mode: Mode, plan: Plan, rows: seq<Row>): bytes
    requires ValidRows(rows)
  {
    HeaderOf(mode, plan, rows) + (RowsText(mode, rows) + Footer(mode))
  }

  lemma RowsGrow(mode: Mode, rows: seq<Row>, row: Row)
    requires ValidRows(rows) && ValidRow(row)
    ensures ValidRows(rows + [row])
    ensures RowsText(mode, rows + [row]) == RowsText(mode, rows) + RowText(mode, row, |rows|)
  {
    hide RowText, ValidRow;
    assert (rows + [row])[..|rows|] == rows;
  }

  lemma BodyGrows(mode: Mode, rows: seq<Row>, row: Row)
    requires ValidRows(rows) && ValidRow(row)
    ensures ValidRows(rows + [row])
    ensures Body(mode, rows + [row])
         == Body(mode, rows) + ((if rows == [] then Header(mode, row.plan) else []) + RowText(mode, row, |rows|))
  {
    hide RowText, Header, ValidRow, RowsText;
    RowsGrow(mode, rows, row);
    if rows == [] {
      NoRows(mode, rows);
      assert [] + RowText(mode, row, 0) == RowText(mode, row, 0);
    } else {
      assert (rows + [row])[0] == rows[0];
    }
  }

  lemma NoRows(mode: Mode, rows: seq<Row>)
    requires rows == []
    ensures RowsText(mode, rows) == []
  {
  }

  lemma BodyThenFooter(mode: Mode, plan: Plan, rows: seq<Row>)
    requires ValidRows(rows)
    ensures Document(mode, plan, rows)
         == Body(mode, rows) + ((if rows == [] then Header(mode, plan) else []) + Footer(mode))
    ensures Body(mode, rows) <= Document(mode, plan, rows)
  {
    hide Header, Footer, ValidRows, RowsText;
    var footer := Footer(mode);
    if rows == [] {
      NoRows(mode, rows);
      assert RowsText(mode, rows) + footer == footer;
    } else {
      assert [] + footer == footer;
      var header, text := HeaderOf(mode, [], rows), RowsText(mode, rows);
      assert header + (text + footer) == (header + text) + footer;
    }
  }

  lemma {:induction false} BodyPrefix(mode: Mode, rows: seq<Row>, k: nat)
    requires ValidRows(rows) && k <= |rows|
    ensures ValidRows(rows[..k]) && Body(mode, rows[..k]) <= Body(mode, rows)
  {
    if k < |rows| {
      var n := |rows| - 1;
      assert rows == rows[..n] + [rows[n]];
      assert ValidRows(rows[..n]);
      BodyGrows(mode, rows[..n], rows[n]);
      BodyPrefix(mode, rows[..n], k);
      assert rows[..n][..k] == rows[..k];
    } else {
      assert rows[..k] == rows;
    }
  }

  // ---- Reading documents --------------------------------------------------------------------

  /** The rows of one result all have the same columns. */
  predicate SamePlan(plan: Plan, rows: seq<Row>)
  {
    forall i :: 0 <= i < |rows| ==> rows[i].plan == plan && |rows[i].cells| == |plan|
  }

  /** Every numeric cell of these rows is what a server sends. */
  predicate NormalRows(plan: Plan, rows: seq<Row>)
    requires SamePlan(plan, rows)
  {
    forall i :: 0 <= i < |rows| ==> NormalCells(plan, rows[i].cells)
  }

  function RowPairs(plan: Plan, rows: seq<Row>): (r: seq<seq<(bytes, Value)>>)
    requires SamePlan(plan, rows)
    ensures |r| == |rows| && forall i :: 0 <= i < |r| ==> r[i] == Pairs(plan, rows[i].cells)
  {
    seq(|rows|, i requires 0 <= i < |rows| => Pairs(plan, rows[i].cells))
  }

  function RowValues(plan: Plan, rows: seq<Row>): (r: seq<seq<Value>>)
    requires SamePlan(plan, rows)
    ensures |r| == |rows| && forall i :: 0 <= i < |r| ==> r[i] == Values(plan, rows[i].cells)
  {
    seq(|rows|, i requires 0 <= i < |rows| => Values(plan, rows[i].cells))
  }

  function Objects(plan: Plan, rows: seq<Row>): (r: seq<bytes>)
    requires SamePlan(plan, rows)
    ensures |r| == |rows| && forall i :: 0 <= i < |r| ==> r[i] == ObjectText(plan, rows[i].cells)
  {
    seq(|rows|, i requires 0 <= i < |rows| => ObjectText(plan, rows[i].cells))
  }

  function Arrays(plan: Plan, rows: seq<Row>): (r: seq<bytes>)
    requires SamePlan(plan, rows)
    ensures |r| == |rows| && forall i :: 0 <= i < |r| ==> r[i] == ArrayText(plan, rows[i].cells)
  {
    seq(|rows|, i requires 0 <= i < |rows| => ArrayText(plan, rows[i].cells))
  }

  function Lines(mode: Mode, plan: Plan, rows: seq<Row>): (r: seq<bytes>)
    requires SamePlan(plan, rows) && (mode.ModeNDJSON? || mode.ModeTOON?)
    ensures |r| == |rows| && forall i :: 0 <= i < |r| ==> r[i] == RowText(mode, rows[i], 0)
  {
    seq(|rows|, i requires 0 <= i < |rows| => RowText(mode, rows[i], 0))
  }

  /** A JSON array of objects that fills the input. */
  function ReadJsonArray(s: bytes): Option<seq<seq<(bytes, Value)>>>
  {
    var t :- Expect(s, OPEN_BRACKET);
    var (rows, rest) :- ReadList(ReadObject, t, CLOSE_BRACKET);
    if rest == [] then Some(rows) else None
  }

  function ReadLine(s: bytes): Option<(seq<(bytes, Value)>, bytes)>
  {
    var (row, s1) :- ReadObject(s);
    var rest :- Expect(s1, NEWLINE);
    Some((row, rest))
  }

  function ReadNdjson(s: bytes): Option<seq<seq<(bytes, Value)>>> { ReadMany(ReadLine, s) }

  function ReadColumnar(s: bytes): Option<(seq<bytes>, seq<seq<Value>>)>
  {
    var (names, s1) :- Headers.ReadColumnsHeader(s);
    var (rows, rest) :- ReadList(ReadArray, s1, CLOSE_BRACKET);
    if rest == [CLOSE_BRACE] then Some((names, rows)) else None
  }

  function ReadToon(s: bytes): Option<(seq<bytes>, seq<seq<Value>>)>
  {
    var (names, s1) :- Headers.ReadToonHeader(s);
    var rows :- ReadMany(ReadToonRow, s1);
    Some((names, rows))
  }

  lemma {:induction false} CommaRows(mode: Mode, plan: Plan, rows: seq<Row>)
    requires SamePlan(plan, rows) && (mode.ModeArray? || mode.ModeColumnar?)
    ensures ValidRows(rows)
    ensures RowsText(mode, rows) == Joined(if mode.ModeArray? then Objects(plan, rows) else Arrays(plan, rows))
  {
    hide ObjectText, ArrayText;
    assert ValidRows(rows);
    if rows != [] {
      var n := |rows| - 1;
      assert SamePlan(plan, rows[..n]);
      CommaRows(mode, plan, rows[..n]);
      var texts := if mode.ModeArray? then Objects(plan, rows) else Arrays(plan, rows);
      assert texts[..n] == if mode.ModeArray? then Objects(plan, rows[..n]) else Arrays(plan, rows[..n]);
      JoinedLast(texts);
    }
  }

  lemma JoinedLast(texts: seq<bytes>)
    requires texts != []
    ensures var n := |texts| - 1;
            Joined(texts) == Joined(texts[..n]) + ((if n > 0 then [COMMA] else []) + texts[n])
  {
  }

  lemma {:induction false} LineRows(mode: Mode, plan: Plan, rows: seq<Row>)
    requires SamePlan(plan, rows) && (mode.ModeNDJSON? || mode.ModeTOON?)
    ensures ValidRows(rows) && RowsText(mode, rows) == Concat(Lines(mode, plan, rows))
  {
    hide ObjectText, ToonText;
    assert ValidRows(rows);
    if rows != [] {
      var n := |rows| - 1;
      assert SamePlan(plan, rows[..n]);
      LineRows(mode, plan, rows[..n]);
      assert Lines(mode, plan, rows)[..n] == Lines(mode, plan, rows[..n]);
    }
  }

  lemma ObjectStart(plan: Plan, cells: seq<Raw>)
    requires |plan| == |cells|
    ensures ObjectText(plan, cells) != [] && ObjectText(plan, cells)[0] == OPEN_BRACE
    ensures ArrayText(plan, cells) != [] && ArrayText(plan, cells)[0] == OPEN_BRACKET
    ensures ToonText(plan, cells) != []
  {
    hide Joined;
  }

  lemma ReadsObject(plan: Plan, cells: seq<Raw>)
    requires |plan| == |cells| && NormalCells(plan, cells)
    ensures Reads(ReadObject, ObjectText(plan, cells), Pairs(plan, cells), CLOSE_BRACKET)
  {
    hide NormalCells, ObjectText, ReadObject;
    ObjectStart(plan, cells);
    forall tail ensures ReadObject(ObjectText(plan, cells) + tail) == Some((Pairs(plan, cells), tail)) {
      ObjectRoundTrip(plan, cells, tail);
    }
  }

  lemma ReadsArray(plan: Plan, cells: seq<Raw>)
    requires |plan| == |cells| && NormalCells(plan, cells)
    ensures Reads(ReadArray, ArrayText(plan, cells), Values(plan, cells), CLOSE_BRACKET)
  {
    hide NormalCells, ArrayText, ReadArray;
    ObjectStart(plan, cells);
    forall tail ensures ReadArray(ArrayText(plan, cells) + tail) == Some((Values(plan, cells), tail)) {
      ArrayRoundTrip(plan, cells, tail);
    }
  }

  /** StreamJSON and QueryJSON: the response is one JSON array holding every row. */
  lemma JsonArrayRoundTrip(plan: Plan, rows: seq<Row>)
    requires SamePlan(plan, rows) && NormalRows(plan, rows)
    ensures ValidRows(rows)
    ensures ReadJsonArray(Document(ModeArray, plan, rows)) == Some(RowPairs(plan, rows))
  {
    hide NormalCells, ObjectText, ReadObject, Reads, ReadList, Joined, RowsText;
    CommaRows(ModeArray, plan, rows);
    forall i | 0 <= i < |rows|
      ensures Reads(ReadObject, Objects(plan, rows)[i], RowPairs(plan, rows)[i], CLOSE_BRACKET)
    {
      ReadsObject(plan, rows[i].cells);
    }
    ReadListOf(ReadObject, Objects(plan, rows), RowPairs(plan, rows), CLOSE_BRACKET, []);
    var t := Joined(Objects(plan, rows)) + ([CLOSE_BRACKET] + []);
    ExpectOf(OPEN_BRACKET, t);
    assert [CLOSE_BRACKET] + [] == [CLOSE_BRACKET];
  }

  lemma ReadsLine(plan: Plan, cells: seq<Raw>)
    requires |plan| == |cells| && NormalCells(plan, cells)
    ensures ReadsAnywhere(ReadLine, ObjectText(plan, cells) + [NEWLINE], Pairs(plan, cells))
  {
    hide NormalCells, ObjectText, ReadObject;
    ObjectStart(plan, cells);
    var text := ObjectText(plan, cells) + [NEWLINE];
    forall tail ensures ReadLine(text + tail) == Some((Pairs(plan, cells), tail)) {
      ObjectRoundTrip(plan, cells, [NEWLINE] + tail);
      ExpectOf(NEWLINE, tail);
      assert text + tail == ObjectText(plan, cells) + ([NEWLINE] + tail);
    }
  }

  /** StreamNDJSON: one object a line, every row. */
  lemma NdjsonRoundTrip(plan: Plan, rows: seq<Row>)
    requires SamePlan(plan, rows) && NormalRows(plan, rows)
    ensures ValidRows(rows)
    ensures ReadNdjson(Document(ModeNDJSON, plan, rows)) == Some(RowPairs(plan, rows))
  {
    hide NormalCells, ObjectText, ReadLine, ReadsAnywhere, ReadMany, Concat, RowsText;
    LineRows(ModeNDJSON, plan, rows);
    forall i | 0 <= i < |rows|
      ensures ReadsAnywhere(ReadLine, Lines(ModeNDJSON, plan, rows)[i], RowPairs(plan, rows)[i])
    {
      ReadsLine(plan, rows[i].cells);
    }
    ReadManyOf(ReadLine, Lines(ModeNDJSON, plan, rows), RowPairs(plan, rows));
    assert Document(ModeNDJSON, plan, rows) == RowsText(ModeNDJSON, rows);
  }

  /** StreamColumnar: the column names and every row, in one JSON object. */
  lemma ColumnarRoundTrip(plan: Plan, rows: seq<Row>)
    requires SamePlan(plan, rows) && NormalRows(plan, rows)
    ensures ValidRows(rows)
    ensures ReadColumnar(Document(ModeColumnar, plan, rows)) == Some((Names(plan), RowValues(plan, rows)))
  {
    hide NormalCells, ArrayText, ReadArray, Reads, ReadList, Joined, RowsText, Headers.ColumnsHeader, Headers.ReadColumnsHeader;
    CommaRows(ModeColumnar, plan, rows);
    forall i | 0 <= i < |rows|
      ensures Reads(ReadArray, Arrays(plan, rows)[i], RowValues(plan, rows)[i], CLOSE_BRACKET)
    {
      ReadsArray(plan, rows[i].cells);
    }
    ReadListOf(ReadArray, Arrays(plan, rows), RowValues(plan, rows), CLOSE_BRACKET, [CLOSE_BRACE]);
    var t := Joined(Arrays(plan, rows)) + ([CLOSE_BRACKET] + [CLOSE_BRACE]);
    Headers.ColumnsHeaderRoundTrip(Names(plan), t);
    assert [CLOSE_BRACKET] + [CLOSE_BRACE] == [CLOSE_BRACKET, CLOSE_BRACE];
  }

  lemma ReadsToonLine(plan: Plan, cells: seq<Raw>)
    requires |plan| == |cells| && NormalCells(plan, cells)
    ensures ReadsAnywhere(ReadToonRow, ToonText(plan, cells), Values(plan, cells))
  {
    hide NormalCells, ToonText, ReadToonRow;
    ObjectStart(plan, cells);
    forall tail ensures ReadToonRow(ToonText(plan, cells) + tail) == Some((Values(plan, cells), tail)) {
      ToonRoundTrip(plan, cells, tail);
    }
  }

  /** StreamTOON: the header line and every row. */
  lemma ToonDocumentRoundTrip(plan: Plan, rows: seq<Row>)
    requires SamePlan(plan, rows) && NormalRows(plan, rows)
    ensures ValidRows(rows)
    ensures ReadToon(Document(ModeTOON, plan, rows)) == Some((Names(plan), RowValues(plan, rows)))
  {
    hide NormalCells, ToonText, ReadToonRow, ReadsAnywhere, ReadMany, Concat, RowsText, Headers.ToonHeader, Headers.ReadToonHeader;
    LineRows(ModeTOON, plan, rows);
    forall i | 0 <= i < |rows|
      ensures ReadsAnywhere(ReadToonRow, Lines(ModeTOON, plan, rows)[i], RowValues(plan, rows)[i])
    {
      ReadsToonLine(plan, rows[i].cells);
    }
    ReadManyOf(ReadToonRow, Lines(ModeTOON, plan, rows), RowValues(plan, rows));
    Headers.ToonHeaderRoundTrip(Names(plan), RowsText(ModeTOON, rows));
    assert RowsText(ModeTOON, rows) + [] == RowsText(ModeTOON, rows);
  }
}
