/**
 COPY FROM in binary format (pgz/copy.go): rows are framed in place in one buffer and leave as
 CopyData messages. The stream is the "Binary Format" of PostgreSQL's COPY reference page.
*/
module CopyIn {
  import opened Bytes

  // ---- The format -------------------------------------------------------------------

  datatype Field =
    | Null | Int2(i2: int) | Int4(i4: int) | Int8(i8: int) | Bool(b: bool) | Text(s: bytes) | Uuid(u: bytes)

  /** The 11-byte signature, no flags, no header extension. */
  const MAGIC: bytes := [0x50, 0x47, 0x43, 0x4F, 0x50, 0x59, 0x0A, 0xFF, 0x0D, 0x0A, 0x00]
  const ZERO_8: bytes := [0, 0, 0, 0, 0, 0, 0, 0]
  const PGCOPY: bytes := MAGIC + ZERO_8
  const TRAILER: bytes := [0xFF, 0xFF]
  const MSG_COPY_DATA: byte := 0x64
  const HDR_LEN := 5

  function FieldBytes(f: Field): bytes
  {
    match f
    case Null => I32(-1)
    case Int2(v) => I32(2) + I16(v)
    case Int4(v) => I32(4) + I32(v)
    case Int8(v) => I32(8) + I64(v)
    case Bool(b) => I32(1) + [if b then 1 else 0]
    case Text(s) => I32(|s|) + s
    case Uuid(u) => I32(16) + u
  }

  function FieldsBytes(fields: seq<Field>): bytes
  {
    if fields == [] then [] else FieldsBytes(fields[..|fields| - 1]) + FieldBytes(fields[|fields| - 1])
  }

  type Tuple = seq<Field>

  function TupleBytes(t: Tuple): bytes { I16(|t|) + FieldsBytes(t) }

  function TuplesBytes(ts: seq<Tuple>): bytes
  {
    if ts == [] then [] else TuplesBytes(ts[..|ts| - 1]) + TupleBytes(ts[|ts| - 1])
  }

  /** A CopyData message: type, length of what follows the type, payload. */
  function Frame(payload: bytes): bytes
  {
    [MSG_COPY_DATA] + (ToBE((|payload| + 4) % TWO_32, 4) + payload)
  }

  // ---- The writer ---------------------------------------------------------------------

  class CopyWriter {
    const fieldCount: int
    var buf: bytes
    var rowStart: nat
    var written: nat
    /** The messages the connection has accepted. */
    var sent: seq<bytes>

    ghost predicate Valid()
      reads this
    {
      |buf| >= HDR_LEN && buf[0] == MSG_COPY_DATA
    }

    ghost function Payload(): bytes
      requires Valid()
      reads this
    {
      buf[HDR_LEN..]
    }

    constructor (fieldCount: int)
      ensures Valid() && Payload() == [] && sent == [] && written == 0 && this.fieldCount == fieldCount
    {
      this.fieldCount := fieldCount;
      buf := [MSG_COPY_DATA, 0, 0, 0, 0];
      rowStart, written, sent := 0, 0, [];
    }

    method Append(p: bytes)
      requires Valid()
      modifies `buf
      ensures Valid() && Payload() == old(Payload()) + p && buf == old(buf) + p
    {
      buf := buf + p;
    }

    /** One field of the current row, by the method for its type. */
    method WriteField(f: Field)
      requires Valid()
      modifies `buf, `written
      ensures Valid() && buf == old(buf) + FieldBytes(f) && written == old(written) + 1
    {
      hide I16, I32, I64;
      match f {
        case Null => Append(I32(-1));
        case Int2(v) => Append(I32(2) + I16(v));
        case Int4(v) => Append(I32(4) + I32(v));
        case Int8(v) => Append(I32(8) + I64(v));
        case Bool(b) =>
          var x: byte := 0;
          if b {
            x := 1;
          }
          Append(I32(1) + [x]);
        case Text(s) =>
          Append(I32(|s|));
          Append(s);
        case Uuid(u) =>
          Append(I32(16));
          Append(u);
      }
      written := written + 1;
    }

    /** Patches the length into the reserved header, sends the buffer, keeps only the header. */
    method Flush() returns (ok: bool)
      requires Valid()
      modifies `buf, `sent
      ensures Valid()
      ensures ok ==> Payload() == []
      ensures ok ==> sent == old(sent) + (if old(Payload()) == [] then [] else [Frame(old(Payload()))])
      ensures !ok ==> sent == old(sent)
    {
      if |buf| <= HDR_LEN {
        return true;
      }
      ghost var payload := Payload();
      var len := ToBE((|buf| - 1) % TWO_32, 4);
      buf := buf[1 := len[0]][2 := len[1]][3 := len[2]][4 := len[3]];
      assert buf == Frame(payload);
      var fails := *;
      if fails {
        return false;
      }
      sent := sent + [buf];
      buf := buf[..HDR_LEN];
      ok := true;
    }

    /** Puts the field count where two bytes were reserved for it. */
    method PatchCount()
      requires Valid() && HDR_LEN <= rowStart <= |buf| - 2
      modifies `buf
      ensures Valid() && buf == old(buf)[..rowStart] + (ToBE(fieldCount % 0x1_0000, 2) + old(buf)[rowStart + 2..])
    {
      var n := ToBE(fieldCount % 0x1_0000, 2);
      buf := buf[rowStart := n[0]][rowStart + 1 := n[1]];
    }
  }

  // ---- One COPY -----------------------------------------------------------------------

  /** What one emit callback does: the fields it writes, and what it returns. */
  datatype Verdict = Continue | Eof | Fail
  datatype Emit = Emit(fields: Tuple, verdict: Verdict)

  datatype CopyResult = Copied(rows: nat) | InvalidFieldCount | EmitFailed | WrongFields(row: nat) | WriteFailed

  /** The callbacks that hand over a row: all before the first that does not. */
  function RowsOf(script: seq<Emit>): seq<Tuple>
  {
    if script == [] || !script[0].verdict.Continue? then [] else [script[0].fields] + RowsOf(script[1..])
  }

  function Flat(groups: seq<seq<Tuple>>): seq<Tuple>
  {
    if groups == [] then [] else Flat(groups[..|groups| - 1]) + groups[|groups| - 1]
  }

  /** The header opens the first message. */
  function Opening(i: nat): bytes { if i == 0 then PGCOPY else [] }

  /** Message `i` carries whole rows, group `i` of them. */
  ghost predicate WholeRows(sent: seq<bytes>, groups: seq<seq<Tuple>>)
  {
    |sent| == |groups| && forall i :: 0 <= i < |sent| ==> sent[i] == Frame(Opening(i) + TuplesBytes(groups[i]))
  }

  /** The same, with the trailer at the end of the last message. */
  ghost predicate Complete(sent: seq<bytes>, groups: seq<seq<Tuple>>)
  {
    && |sent| == |groups| > 0 && WholeRows(sent[..|sent| - 1], groups[..|sent| - 1])
    && sent[|sent| - 1] == Frame(Opening(|sent| - 1) + (TuplesBytes(groups[|sent| - 1]) + TRAILER))
  }

  predicate FullRows(rows: seq<Tuple>, n: int) { forall i :: 0 <= i < |rows| ==> |rows[i]| == n }

  method EmitFields(w: CopyWriter, fields: Tuple)
    requires w.Valid()
    modifies w`buf, w`written
    ensures w.Valid() && w.buf == old(w.buf) + FieldsBytes(fields) && w.written == old(w.written) + |fields|
  {
    hide FieldBytes;
    for i := 0 to |fields|
      invariant w.Valid() && w.buf == old(w.buf) + FieldsBytes(fields[..i]) && w.written == old(w.written) + i
    {
      assert fields[..i + 1][..i] == fields[..i];
      w.WriteField(fields[i]);
    }
    assert fields[..|fields|] == fields;
  }

  /** Two bytes reserved, the fields, the count patched in: one tuple, appended. */
  method WriteRow(w: CopyWriter, e: Emit) returns (ok: bool)
    requires w.Valid()
    modifies w`buf, w`written, w`rowStart
    ensures w.Valid() && w.written == |e.fields|
    ensures ok <==> e.verdict.Continue? && |e.fields| == w.fieldCount
    ensures ok ==> w.Payload() == old(w.Payload()) + TupleBytes(e.fields)
    ensures e.verdict.Eof? ==> w.Payload() == old(w.Payload())
  {
    hide FieldsBytes, TupleBytes;
    ghost var before := w.buf;
    w.rowStart := |w.buf|;
    w.Append([0, 0]);
    w.written := 0;
    EmitFields(w, e.fields);
    assert w.buf[..|before|] == before;
    ok := false;
    if e.verdict.Eof? {
      w.buf := w.buf[..w.rowStart];
      return;
    }
    if e.verdict.Fail? || w.written != w.fieldCount {
      return;
    }
    assert w.buf[w.rowStart + 2..] == FieldsBytes(e.fields);
    w.PatchCount();
    TupleIs(e.fields);
    assert w.buf == before + TupleBytes(e.fields);
    ok := true;
  }

  lemma TupleIs(t: Tuple)
    ensures TupleBytes(t) == ToBE(|t| % 0x1_0000, 2) + FieldsBytes(t)
  {
  }

  lemma FlatStep(groups: seq<seq<Tuple>>, g: seq<Tuple>)
    ensures Flat(groups + [g]) == Flat(groups) + g
  {
    assert (groups + [g])[..|groups|] == groups;
  }

  lemma GroupSent(sent: seq<bytes>, groups: seq<seq<Tuple>>, g: seq<Tuple>)
    requires WholeRows(sent, groups)
    ensures WholeRows(sent + [Frame(Opening(|groups|) + TuplesBytes(g))], groups + [g])
  {
    hide Frame, Opening, TuplesBytes;
  }

  lemma {:induction false} RowsOfPrefix(script: seq<Emit>, i: nat)
    requires i <= |script| && forall k :: 0 <= k < i ==> script[k].verdict.Continue?
    ensures |RowsOf(script)| >= i && forall k :: 0 <= k < i ==> RowsOf(script)[k] == script[k].fields
    ensures (i == |script| || !script[i].verdict.Continue?) ==> |RowsOf(script)| == i
  {
    if i > 0 {
      RowsOfPrefix(script[1..], i - 1);
    }
  }

  lemma TuplesStep(ts: seq<Tuple>, t: Tuple)
    ensures TuplesBytes(ts + [t]) == TuplesBytes(ts) + TupleBytes(t)
  {
    assert (ts + [t])[..|ts|] == ts;
  }

  /** The loop's state: whole rows sent, whole rows in the buffer. */
  ghost predicate Sending(sent: seq<bytes>, payload: bytes, groups: seq<seq<Tuple>>, pending: seq<Tuple>,
                          rows: seq<Tuple>)
  {
    && WholeRows(sent, groups) && rows == Flat(groups) + pending
    && payload == Opening(|groups|) + TuplesBytes(pending)
  }

  /** `rows` are the first rows the callbacks hand over. */
  ghost predicate Heard(script: seq<Emit>, rows: seq<Tuple>)
  {
    && |rows| <= |script|
    && forall k :: 0 <= k < |rows| ==> script[k].verdict.Continue? && rows[k] == script[k].fields
  }

  lemma HeardPrefix(script: seq<Emit>, rows: seq<Tuple>)
    requires Heard(script, rows)
    ensures rows <= RowsOf(script)
    ensures |rows| == |script| || !script[|rows|].verdict.Continue? ==> rows == RowsOf(script)
    ensures |rows| < |script| && script[|rows|].verdict.Continue? ==>
              |rows| < |RowsOf(script)| && RowsOf(script)[|rows|] == script[|rows|].fields
  {
    RowsOfPrefix(script, |rows|);
    if |rows| < |script| && script[|rows|].verdict.Continue? {
      RowsOfPrefix(script, |rows| + 1);
    }
  }

  lemma SendingStart()
    ensures Sending([], PGCOPY, [], [], [])
  {
    assert Flat([]) == [] && TuplesBytes([]) == [];
  }

  lemma SendingRow(sent: seq<bytes>, payload: bytes, groups: seq<seq<Tuple>>, pending: seq<Tuple>, rows: seq<Tuple>,
                   t: Tuple)
    requires Sending(sent, payload, groups, pending, rows)
    ensures Sending(sent, payload + TupleBytes(t), groups, pending + [t], rows + [t])
  {
    hide WholeRows, TuplesBytes, TupleBytes, Flat, Opening;
    TuplesStep(pending, t);
    assert rows + [t] == Flat(groups) + (pending + [t]);
  }

  lemma SendingPrefix(sent: seq<bytes>, payload: bytes, groups: seq<seq<Tuple>>, pending: seq<Tuple>,
                      rows: seq<Tuple>, n: int)
    requires Sending(sent, payload, groups, pending, rows) && FullRows(rows, n)
    ensures WholeRows(sent, groups) && Flat(groups) <= rows && FullRows(Flat(groups), n)
  {
    assert forall i :: 0 <= i < |Flat(groups)| ==> Flat(groups)[i] == rows[i];
  }

  /** Messages before the last are flushed because they have reached the threshold. */
  predicate AtLeast(sent: seq<bytes>, threshold: nat) { forall i :: 0 <= i < |sent| ==> |sent[i]| >= threshold }

  lemma FrameLength(w: bytes, payload: bytes)
    requires |w| >= HDR_LEN && payload == w[HDR_LEN..]
    ensures |Frame(payload)| == |w|
  {
  }

  method FlushRows(w: CopyWriter, ghost groups: seq<seq<Tuple>>, ghost pending: seq<Tuple>, ghost rows: seq<Tuple>)
    returns (ok: bool)
    requires w.Valid() && pending != [] && Sending(w.sent, w.Payload(), groups, pending, rows)
    modifies w`buf, w`sent
    ensures w.Valid()
    ensures ok ==> Sending(w.sent, w.Payload(), groups + [pending], [], rows)
    ensures ok ==> |w.sent| == |old(w.sent)| + 1 && w.sent[..|old(w.sent)|] == old(w.sent)
    ensures ok ==> |w.sent[|old(w.sent)|]| == |old(w.buf)|
    ensures !ok ==> w.sent == old(w.sent)
  {
    hide WholeRows, TuplesBytes, Flat, Frame;
    NotEmpty(pending);
    GroupSent(w.sent, groups, pending);
    FlatStep(groups, pending);
    SameLength(w.sent, groups);
    FrameLength(w.buf, w.Payload());
    ok := w.Flush();
    NoTuples();
    assert rows == rows + [];
  }

  lemma NoTuples()
    ensures TuplesBytes([]) == []
  {
  }

  /** The trailer and the last message. */
  method FlushTrailer(w: CopyWriter, ghost groups: seq<seq<Tuple>>, ghost pending: seq<Tuple>, ghost rows: seq<Tuple>)
    returns (ok: bool)
    requires w.Valid() && Sending(w.sent, w.Payload(), groups, pending, rows)
    modifies w`buf, w`sent
    ensures w.Valid()
    ensures ok ==> Complete(w.sent, groups + [pending]) && Flat(groups + [pending]) == rows
    ensures ok ==> |w.sent| == |old(w.sent)| + 1 && w.sent[..|w.sent| - 1] == old(w.sent)
    ensures !ok ==> w.sent == old(w.sent)
  {
    hide WholeRows, TuplesBytes, Flat, Frame, Complete;
    w.Append(TRAILER);
    assert w.Payload() == Opening(|groups|) + (TuplesBytes(pending) + TRAILER);
    FlatStep(groups, pending);
    Closed(w.sent, groups, pending);
    SameLength(w.sent, groups);
    ok := w.Flush();
  }

  /**
   Runs the callbacks. On success the messages carry the header, every row and the trailer; on
   any failure only whole rows have left and no trailer.
  */
  method CopyFromBinary(fieldCount: int, script: seq<Emit>, threshold: nat)
    returns (r: CopyResult, w: CopyWriter, ghost groups: seq<seq<Tuple>>)
    ensures r.InvalidFieldCount? <==> fieldCount <= 0 || fieldCount > 0x7FFF
    ensures r.InvalidFieldCount? ==> w.sent == []
    ensures r.Copied? ==>
              && r.rows == |RowsOf(script)| && Complete(w.sent, groups)
              && Flat(groups) == RowsOf(script) && FullRows(RowsOf(script), fieldCount)
    ensures r.Copied? ==> AtLeast(w.sent[..|w.sent| - 1], threshold)
    ensures !r.Copied? ==> WholeRows(w.sent, groups) && Flat(groups) <= RowsOf(script) && FullRows(Flat(groups), fieldCount)
    ensures r.WrongFields? ==>
              && r.row < |RowsOf(script)| && |RowsOf(script)[r.row]| != fieldCount
              && FullRows(RowsOf(script)[..r.row], fieldCount)
    ensures r.EmitFailed? ==> |RowsOf(script)| < |script| && script[|RowsOf(script)|].verdict.Fail?
  {
    hide TupleBytes, Sending, Flat, RowsOf, WholeRows, Complete, Heard;
    groups := [];
    w := new CopyWriter(fieldCount);
    SendingStart();
    SendingPrefix([], PGCOPY, [], [], [], fieldCount);
    HeardNone(script);
    if fieldCount <= 0 || fieldCount > 0x7FFF {
      return InvalidFieldCount, w, groups;
    }
    w.Append(PGCOPY);
    ghost var rows: seq<Tuple> := [];
    ghost var pending: seq<Tuple> := [];
    var n := 0;
    while n < |script|
      invariant n == |rows| <= |script| && w.Valid() && w.fieldCount == fieldCount
      invariant Heard(script, rows) && FullRows(rows, fieldCount)
      invariant Sending(w.sent, w.Payload(), groups, pending, rows) && AtLeast(w.sent, threshold)
    {
      HeardPrefix(script, rows);
      SendingPrefix(w.sent, w.Payload(), groups, pending, rows, fieldCount);
      ghost var payload := w.Payload();
      var ok := WriteRow(w, script[n]);
      if script[n].verdict.Eof? {
        break;
      }
      if !ok {
        r := if script[n].verdict.Fail? then EmitFailed else WrongFields(n);
        return;
      }
      SendingRow(w.sent, payload, groups, pending, rows, script[n].fields);
      HeardMore(script, rows);
      rows := rows + [script[n].fields];
      pending := pending + [script[n].fields];
      n := n + 1;
      if |w.buf| >= threshold {
        HeardPrefix(script, rows);
        SendingPrefix(w.sent, w.Payload(), groups, pending, rows, fieldCount);
        ok := FlushRows(w, groups, pending, rows);
        if !ok {
          return WriteFailed, w, groups;
        }
        groups := groups + [pending];
        pending := [];
      }
    }
    HeardPrefix(script, rows);
    SendingPrefix(w.sent, w.Payload(), groups, pending, rows, fieldCount);
    var ok := FlushTrailer(w, groups, pending, rows);
    if !ok {
      return WriteFailed, w, groups;
    }
    groups := groups + [pending];
    r := Copied(n);
  }

  lemma HeardNone(script: seq<Emit>)
    ensures Heard(script, []) && [] <= RowsOf(script)
  {
  }

  lemma HeardMore(script: seq<Emit>, rows: seq<Tuple>)
    requires Heard(script, rows) && |rows| < |script| && script[|rows|].verdict.Continue?
    ensures Heard(script, rows + [script[|rows|].fields])
  {
  }

  lemma NotEmpty(pending: seq<Tuple>)
    requires pending != []
    ensures TuplesBytes(pending) != []
  {
  }

  lemma Closed(sent: seq<bytes>, groups: seq<seq<Tuple>>, g: seq<Tuple>)
    requires WholeRows(sent, groups)
    ensures Complete(sent + [Frame(Opening(|groups|) + (TuplesBytes(g) + TRAILER))], groups + [g])
  {
    hide Frame, Opening, TuplesBytes, WholeRows;
    var all := sent + [Frame(Opening(|groups|) + (TuplesBytes(g) + TRAILER))];
    SameLength(sent, groups);
    assert all[..|all| - 1] == sent && (groups + [g])[..|all| - 1] == groups;
  }

  lemma SameLength(sent: seq<bytes>, groups: seq<seq<Tuple>>)
    requires WholeRows(sent, groups)
    ensures |sent| == |groups|
  {
  }

  // ---- Any other format ------------------------------------------------------------------------

  /** What the messages carry behind their headers. */
  function Carried(sent: seq<bytes>): bytes
  {
    if sent == [] then []
    else
      var last := sent[|sent| - 1];
      Carried(sent[..|sent| - 1]) + (if |last| >= HDR_LEN then last[HDR_LEN..] else [])
  }

  lemma CarriesMore(sent: seq<bytes>, payload: bytes)
    ensures Carried(sent + [Frame(payload)]) == Carried(sent) + payload
    ensures |Frame(payload)| == |payload| + HDR_LEN && Frame(payload)[HDR_LEN..] == payload
  {
    assert (sent + [Frame(payload)])[..|sent|] == sent;
  }

  /** copyFrom: the input cut into frames of at most `size` bytes; a failed write stops it. */
  method PumpCopyData(input: bytes, size: nat) returns (ok: bool, sent: seq<bytes>)
    requires size > 0
    ensures forall i :: 0 <= i < |sent| ==>
              HDR_LEN < |sent[i]| <= HDR_LEN + size && sent[i] == Frame(sent[i][HDR_LEN..])
    ensures Carried(sent) <= input && (ok ==> Carried(sent) == input)
  {
    hide Frame, Carried;
    sent := [];
    NothingCarried();
    var rest := input;
    while |rest| > 0
      invariant forall i :: 0 <= i < |sent| ==>
                  HDR_LEN < |sent[i]| <= HDR_LEN + size && sent[i] == Frame(sent[i][HDR_LEN..])
      invariant Carried(sent) + rest == input
    {
      var n := if |rest| < size then |rest| else size;
      var fails := *;
      if fails {
        return false, sent;
      }
      CarriesMore(sent, rest[..n]);
      assert (Carried(sent) + rest[..n]) + rest[n..] == Carried(sent) + rest;
      sent := sent + [Frame(rest[..n])];
      rest := rest[n..];
    }
    ok := true;
  }

  lemma NothingCarried()
    ensures Carried([]) == []
  {
  }
}
