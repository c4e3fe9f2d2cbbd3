/**
 Running a query (pgz/query.go): one execution streams rows into the writer; two nested loops
 may run it again.
*/
module Query {
  import opened Bytes
  import opened Rows
  import opened Documents
  import opened Stream

  datatype Msg =
    | BindComplete | DataRow(body: bytes) | Complete | RowDescription(plan: Option<Plan>)
    | Async | ErrorMsg(code: string) | ReadyForQuery | Other

  datatype Limit = RowLimit | ByteLimit

  datatype Result =
    | Ok | ServerError(code: string) | WriteError | RowError | WireError | UnexpectedMsg | NoPlan
    | TooLarge(limit: Limit, observed: nat, committed: bool)

  /** MaxResponseRows, MaxResponseBytes (0 or less: no cap), and the retry switch. */
  datatype Config = Config(maxRows: int, maxBytes: int, retryOnSerialization: bool)

  const STALE_STATEMENT := "26000"
  const SERIALIZATION_FAILURE := "40001"
  const DEADLOCK_DETECTED := "40P01"

  predicate IsRetryable(r: Result)
  {
    r.ServerError? && (r.code == SERIALIZATION_FAILURE || r.code == DEADLOCK_DETECTED)
  }

  predicate IsStale(r: Result) { r.ServerError? && r.code == STALE_STATEMENT }

  // ---- What one execution delivers -----------------------------------------------------

  /** One execution: the cached plan it starts from and everything the server answers. */
  datatype Execution = Execution(plan: Plan, msgs: seq<Msg>)

  function PlanAfter(plan: Plan, msgs: seq<Msg>): Plan
  {
    if msgs == [] then plan
    else
      match msgs[|msgs| - 1]
      case RowDescription(Some(p)) => p
      case _ => PlanAfter(plan, msgs[..|msgs| - 1])
  }

  /** The rows among the messages, each with the plan in force; undecodable ones yield nothing. */
  function RowsOf(plan: Plan, msgs: seq<Msg>): (rows: seq<Row>)
    ensures ValidRows(rows)
  {
    if msgs == [] then []
    else
      var n := |msgs| - 1;
      var p := PlanAfter(plan, msgs[..n]);
      RowsOf(plan, msgs[..n])
      + (if msgs[n].DataRow? && DecodeRow(msgs[n].body, |p|).Some?
         then [Row(p, DecodeRow(msgs[n].body, |p|).value)] else [])
  }

  /** The code of the last error among the messages. */
  function LastError(msgs: seq<Msg>): Option<string>
  {
    if msgs == [] then None
    else if msgs[|msgs| - 1].ErrorMsg? then Some(msgs[|msgs| - 1].code)
    else LastError(msgs[..|msgs| - 1])
  }

  /** The bodies of the DataRow messages, in order. */
  function Sent(msgs: seq<Msg>): seq<bytes>
  {
    if msgs == [] then []
    else
      var last := msgs[|msgs| - 1];
      Sent(msgs[..|msgs| - 1]) + (if last.DataRow? then [last.body] else [])
  }

  /** Message `i` does not end the loop. */
  predicate GoesOn(e: Execution, i: nat)
    requires i < |e.msgs|
  {
    match e.msgs[i]
    case DataRow(body) => DecodeRow(body, |PlanAfter(e.plan, e.msgs[..i])|).Some?
    case RowDescription(plan) => plan.Some?
    case ReadyForQuery => false
    case Other => false
    case _ => true
  }

  ghost predicate ReadOn(e: Execution, n: nat)
    requires n <= |e.msgs|
  {
    forall i :: 0 <= i < n ==> GoesOn(e, i)
  }

  /** The message that ended the loop, if one did, is one that explains the result. */
  ghost predicate Stopped(e: Execution, used: nat, r: Result)
    requires used <= |e.msgs|
  {
    match r
    case WireError => used == |e.msgs| && ReadOn(e, used)
    case TooLarge(_, _, _) => used > 0 && ReadOn(e, used) && e.msgs[used - 1].DataRow?
    case WriteError =>
      && used > 0 && ReadOn(e, used - 1)
      && (if e.msgs[used - 1].DataRow? then GoesOn(e, used - 1)
          else e.msgs[used - 1].ReadyForQuery? && LastError(e.msgs[..used]).None?)
    case RowError =>
      && used > 0 && ReadOn(e, used - 1) && !GoesOn(e, used - 1)
      && (e.msgs[used - 1].DataRow? || e.msgs[used - 1].RowDescription?)
    case UnexpectedMsg => used > 0 && ReadOn(e, used - 1) && e.msgs[used - 1].Other?
    case Ok => used > 0 && ReadOn(e, used - 1) && e.msgs[used - 1].ReadyForQuery? && LastError(e.msgs[..used]).None?
    case ServerError(code) =>
      used > 0 && ReadOn(e, used - 1) && e.msgs[used - 1].ReadyForQuery? && LastError(e.msgs[..used]) == Some(code)
    case NoPlan => false
  }

  // ---- What these words mean ---------------------------------------------------------------

  /** The last error, if there is one: no error comes behind it. */
  lemma {:induction false} LastErrorIs(msgs: seq<Msg>)
    ensures LastError(msgs).None? <==> forall i :: 0 <= i < |msgs| ==> !msgs[i].ErrorMsg?
    ensures LastError(msgs).Some? ==>
              exists i :: 0 <= i < |msgs| && msgs[i] == ErrorMsg(LastError(msgs).value)
                          && forall j :: i < j < |msgs| ==> !msgs[j].ErrorMsg?
  {
    if msgs != [] {
      var n := |msgs| - 1;
      LastErrorIs(msgs[..n]);
      if msgs[n].ErrorMsg? {
        assert msgs[n] == ErrorMsg(LastError(msgs).value);
      } else if LastError(msgs).Some? {
        var i :| 0 <= i < n && msgs[..n][i] == ErrorMsg(LastError(msgs).value)
                 && forall j :: i < j < n ==> !msgs[..n][j].ErrorMsg?;
        assert msgs[i] == ErrorMsg(LastError(msgs).value);
        assert forall j :: i < j < n ==> msgs[j] == msgs[..n][j];
      }
    }
  }

  /** The plan in force: that of the last RowDescription, or the one to start with. */
  ghost predicate InForce(plan: Plan, msgs: seq<Msg>, p: Plan)
  {
    || (p == plan && forall i :: 0 <= i < |msgs| && msgs[i].RowDescription? ==> msgs[i].plan.None?)
    || exists i :: 0 <= i < |msgs| && msgs[i] == RowDescription(Some(p))
                   && forall j :: i < j < |msgs| && msgs[j].RowDescription? ==> msgs[j].plan.None?
  }

  /** No RowDescription from position `from` on changes the plan. */
  predicate NoPlanFrom(msgs: seq<Msg>, from: nat)
  {
    forall j :: from <= j < |msgs| && msgs[j].RowDescription? ==> msgs[j].plan.None?
  }

  /** Where the plan in force comes from, if not from the start. */
  lemma {:induction false} PlanAfterAt(plan: Plan, msgs: seq<Msg>) returns (at: Option<nat>)
    ensures at.None? ==> PlanAfter(plan, msgs) == plan && NoPlanFrom(msgs, 0)
    ensures at.Some? ==> at.value < |msgs| && msgs[at.value] == RowDescription(Some(PlanAfter(plan, msgs)))
                         && NoPlanFrom(msgs, at.value + 1)
  {
    at := None;
    if msgs != [] {
      var n := |msgs| - 1;
      var m := msgs[n];
      assert msgs == msgs[..n] + [m];
      if m.RowDescription? && m.plan.Some? {
        at := Some(n);
      } else {
        at := PlanAfterAt(plan, msgs[..n]);
      }
    }
  }

  lemma PlanAfterIs(plan: Plan, msgs: seq<Msg>)
    ensures InForce(plan, msgs, PlanAfter(plan, msgs))
  {
    hide PlanAfter;
    var at := PlanAfterAt(plan, msgs);
  }

  /** The `j`th row belongs to the `j`th DataRow and to the plan in force there. */
  lemma {:induction false} RowPlans(e: Execution, n: nat, j: nat) returns (at: nat)
    requires n <= |e.msgs| && (ReadOn(e, n) || (n > 0 && ReadOn(e, n - 1) && !e.msgs[n - 1].DataRow?))
    requires j < |Sent(e.msgs[..n])|
    ensures at < n && e.msgs[at].DataRow? && |Sent(e.msgs[..at])| == j && Sent(e.msgs[..n])[j] == e.msgs[at].body
    ensures j < |RowsOf(e.plan, e.msgs[..n])| && InForce(e.plan, e.msgs[..at], RowsOf(e.plan, e.msgs[..n])[j].plan)
  {
    hide DecodeRow, PlanAfter, InForce;
    assert e.msgs[..n][..n - 1] == e.msgs[..n - 1];
    assert ReadOn(e, n) ==> GoesOn(e, n - 1);
    EveryRowDecoded(e, n);
    EveryRowDecoded(e, n - 1);
    if j < |Sent(e.msgs[..n - 1])| {
      at := RowPlans(e, n - 1, j);
    } else {
      at := n - 1;
      PlanAfterIs(e.plan, e.msgs[..at]);
    }
  }

  /** Every DataRow before the stop has become one row, in order. */
  lemma {:induction false} EveryRowDecoded(e: Execution, n: nat)
    requires n <= |e.msgs| && (ReadOn(e, n) || (n > 0 && ReadOn(e, n - 1) && !e.msgs[n - 1].DataRow?))
    ensures var rows, sent := RowsOf(e.plan, e.msgs[..n]), Sent(e.msgs[..n]);
            |rows| == |sent| && forall j :: 0 <= j < |rows| ==> DecodeRow(sent[j], |rows[j].plan|) == Some(rows[j].cells)
  {
    if n > 0 {
      hide DecodeRow, PlanAfter;
      assert ReadOn(e, n) ==> GoesOn(e, n - 1);
      EveryRowDecoded(e, n - 1);
      assert e.msgs[..n][..n - 1] == e.msgs[..n - 1];
    }
  }

  /** Neither cap is reached by these rows. */
  predicate Under(c: Config, mode: Mode, rows: seq<Row>)
    requires ValidRows(rows)
  {
    (c.maxRows > 0 ==> |rows| < c.maxRows) && (c.maxBytes > 0 ==> |Body(mode, rows)| < c.maxBytes)
  }

  /** Every row but the last was still under both caps. */
  ghost predicate CapLaw(c: Config, mode: Mode, rows: seq<Row>)
    requires ValidRows(rows)
  {
    forall j :: 0 <= j < |rows| ==> ValidRows(rows[..j]) && (j > 0 ==> Under(c, mode, rows[..j]))
  }

  lemma CapGrows(c: Config, mode: Mode, rows: seq<Row>, row: Row)
    requires ValidRows(rows) && ValidRow(row) && CapLaw(c, mode, rows) && (rows != [] ==> Under(c, mode, rows))
    ensures ValidRows(rows + [row]) && CapLaw(c, mode, rows + [row])
  {
    hide Under, ValidRow;
    forall j | 0 <= j < |rows + [row]|
      ensures ValidRows((rows + [row])[..j]) && (j > 0 ==> Under(c, mode, (rows + [row])[..j]))
    {
      if j < |rows| {
        assert (rows + [row])[..j] == rows[..j];
      } else {
        assert (rows + [row])[..j] == rows;
      }
    }
  }

  /** While rows arrive: all of them are written or buffered, and the cut is at a row boundary. */
  ghost predicate Told(s: State, mode: Mode, rows: seq<Row>, k: nat)
    requires ValidRows(rows)
  {
    && !s.broken && k <= |rows| && ValidRows(rows[..k])
    && s.sink == Body(mode, rows[..k]) && s.sink + s.buf == Body(mode, rows)
  }

  /** The destination holds the first rows of this execution and nothing else. */
  ghost predicate WholeRows(s: State, mode: Mode, rows: seq<Row>)
    requires ValidRows(rows)
  {
    exists k: nat :: k <= |rows| && ValidRows(rows[..k]) && s.sink == Body(mode, rows[..k])
  }

  /** The cap that was reached, the row cap first, and what was observed. */
  ghost predicate CapHit(s: State, c: Config, mode: Mode, rows: seq<Row>, r: Result)
    requires r.TooLarge? && ValidRows(rows)
  {
    && r.committed == s.committed
    && (r.limit.RowLimit? <==> c.maxRows > 0 && |rows| >= c.maxRows)
    && (r.limit.ByteLimit? ==> c.maxBytes > 0 && |Body(mode, rows)| >= c.maxBytes)
    && r.observed == (if r.limit.RowLimit? then |rows| else |Body(mode, rows)|)
  }

  /**
   What the caller of an execution may rely on. `used` counts the messages that were read
   before it stopped.
  */
  ghost predicate Outcome(s: State, streaming: bool, c: Config, mode: Mode, e: Execution, used: nat, r: Result)
    requires used <= |e.msgs|
  {
    var seen := e.msgs[..used];
    var rows := RowsOf(e.plan, seen);
    && Stopped(e, used, r)
    && CapLaw(c, mode, rows)
    && (s.broken <==> r.WriteError?)
    && match r
       case Ok =>
         && s.sink + s.buf == Document(mode, PlanAfter(e.plan, seen), rows)
         && (streaming ==> s.buf == []) && (rows != [] ==> Under(c, mode, rows))
       case WriteError => s.sink <= Document(mode, PlanAfter(e.plan, seen), rows)
       case TooLarge(_, _, _) => WholeRows(s, mode, rows) && rows != [] && CapHit(s, c, mode, rows, r)
       case _ => WholeRows(s, mode, rows)
  }

  // ---- One execution -----------------------------------------------------------------------

  method WriteHeader(w: Writer, mode: Mode, plan: Plan)
    requires w.Valid()
    modifies w
    ensures w.Valid() && w.Contents() == old(w.Contents()).(buf := old(w.buf) + Header(mode, plan))
  {
    hide Header;
    w.Append(Header(mode, plan));
  }

  method WriteFooter(w: Writer, mode: Mode)
    requires w.Valid()
    modifies w
    ensures w.Valid() && w.Contents() == old(w.Contents()).(buf := old(w.buf) + Footer(mode))
  {
    match mode
    case ModeArray => w.Append([0x5D]);
    case ModeColumnar => w.Append([0x5D, 0x7D]);
    case _ =>
      assert w.buf + Footer(mode) == w.buf;
  }

  /** The row encoder of each mode, appending behind `dst`. */
  method EncodeRow(dst: bytes, mode: Mode, plan: Plan, body: bytes, idx: nat) returns (out: bytes, ok: bool)
    ensures ok <==> DecodeRow(body, |plan|).Some?
    ensures ok ==> out == dst + RowText(mode, Row(plan, DecodeRow(body, |plan|).value), idx)
  {
    hide DecodeRow, ObjectText, ArrayText, ToonText;
    out := dst;
    match mode {
      case ModeArray =>
        if idx > 0 {
          out := out + [0x2C];
        }
        out, ok := AppendObject(out, body, plan);
      case ModeNDJSON =>
        out, ok := AppendObject(out, body, plan);
        out := out + [0x0A];
      case ModeColumnar =>
        if idx > 0 {
          out := out + [0x2C];
        }
        out, ok := AppendArray(out, body, plan);
      case ModeTOON =>
        out, ok := AppendTOONRow(out, body, plan);
    }
  }

  /** Writes one row behind what is buffered and gives the writer a chance to flush. */
  method WriteRow(w: Writer, mode: Mode, plan: Plan, body: bytes, idx: nat) returns (r: Result)
    requires w.Valid() && !w.broken
    modifies w
    ensures w.Valid() && old(w.sink) <= w.sink
    ensures r.Ok? || r.RowError? || r.WriteError?
    ensures r.RowError? <==> DecodeRow(body, |plan|).None?
    ensures r.RowError? ==> w.Contents() == old(w.Contents())
    ensures !r.RowError? ==>
              var text := RowText(mode, Row(plan, DecodeRow(body, |plan|).value), idx);
              Kept(old(w.Contents()).(buf := old(w.buf) + text), w.Contents(), r.Ok?)
  {
    hide DecodeRow, RowText;
    var startLen := |w.buf|;
    var scratch, ok := EncodeRow(w.buf, mode, plan, body, idx);
    if !ok {
      return RowError;
    }
    w.SetBuf(scratch);
    if idx == 0 {
      w.GrowForRow(|scratch| - startLen);
    }
    var flushed := w.MaybeFlush();
    r := if flushed then Ok else WriteError;
  }

  /** After a possible flush: nothing is lost, and either all of it went out or none. */
  ghost predicate Kept(s: State, t: State, ok: bool)
  {
    if ok then t == s || Flushed(s, t, true) else Flushed(s, t, false)
  }

  method CheckCaps(c: Config, w: Writer, rowCount: nat) returns (r: Result)
    requires w.Valid()
    ensures r.Ok? || r.TooLarge?
    ensures r.Ok? <==> (c.maxRows > 0 ==> rowCount < c.maxRows) && (c.maxBytes > 0 ==> w.BytesOut() < c.maxBytes)
    ensures r.TooLarge? ==> r.committed == w.Committed()
    ensures r.TooLarge? ==> r.observed == if r.limit.RowLimit? then rowCount else w.BytesOut()
    ensures r.TooLarge? ==> (r.limit.RowLimit? <==> c.maxRows > 0 && rowCount >= c.maxRows)
    ensures r.TooLarge? && r.limit.ByteLimit? ==> c.maxBytes > 0 && w.BytesOut() >= c.maxBytes
  {
    if c.maxRows > 0 && rowCount >= c.maxRows {
      return TooLarge(RowLimit, rowCount, w.Committed());
    }
    if c.maxBytes > 0 {
      var got := w.BytesOut();
      if got >= c.maxBytes {
        return TooLarge(ByteLimit, got, w.Committed());
      }
    }
    r := Ok;
  }

  /** Reads on to the end of the server's answer, whatever it holds. */
  method AbortOversize(msgs: seq<Msg>, start: nat) returns (read: nat)
    requires start <= |msgs|
    ensures start <= read <= |msgs|
    ensures read == |msgs| || (read > start && msgs[read - 1].ReadyForQuery?)
    ensures forall i :: start <= i < read - 1 ==> !msgs[i].ReadyForQuery?
  {
    read := start;
    while read < |msgs|
      invariant start <= read <= |msgs|
      invariant forall i :: start <= i < read ==> !msgs[i].ReadyForQuery?
    {
      read := read + 1;
      if msgs[read - 1].ReadyForQuery? {
        return;
      }
    }
  }

  lemma PlanStep(plan: Plan, msgs: seq<Msg>, i: nat)
    requires i < |msgs|
    ensures LastError(msgs[..i + 1]) == if msgs[i].ErrorMsg? then Some(msgs[i].code) else LastError(msgs[..i])
    ensures PlanAfter(plan, msgs[..i + 1]) ==
      match msgs[i]
      case RowDescription(Some(p)) => p
      case _ => PlanAfter(plan, msgs[..i])
    ensures var p := PlanAfter(plan, msgs[..i]);
            RowsOf(plan, msgs[..i + 1]) == RowsOf(plan, msgs[..i])
            + (if msgs[i].DataRow? && DecodeRow(msgs[i].body, |p|).Some?
               then [Row(p, DecodeRow(msgs[i].body, |p|).value)] else [])
  {
    hide DecodeRow;
    assert msgs[..i + 1][..i] == msgs[..i];
  }

  /** A row more, written and perhaps flushed. */
  lemma ToldStep(s: State, t: State, mode: Mode, rows: seq<Row>, row: Row, k: nat, ok: bool) returns (k': nat)
    requires ValidRows(rows) && ValidRow(row) && Told(s, mode, rows, k)
    requires var text := (if rows == [] then Header(mode, row.plan) else []) + RowText(mode, row, |rows|);
             Kept(s.(buf := s.buf + text), t, ok)
    ensures ValidRows(rows + [row])
    ensures ok ==> Told(t, mode, rows + [row], k')
    ensures !ok ==> t.broken && t.sink <= Body(mode, rows + [row])
  {
    hide Body, RowText, Header, ValidRow;
    BodyGrows(mode, rows, row);
    var text := (if rows == [] then Header(mode, row.plan) else []) + RowText(mode, row, |rows|);
    var u := s.(buf := s.buf + text);
    assert u.sink + u.buf == Body(mode, rows + [row]);
    k' := if t == u then k else |rows| + 1;
    assert (rows + [row])[..k] == rows[..k];
    assert (rows + [row])[..|rows| + 1] == rows + [row];
  }

  lemma ToldWhole(s: State, mode: Mode, rows: seq<Row>, k: nat)
    requires ValidRows(rows) && Told(s, mode, rows, k)
    ensures WholeRows(s, mode, rows) && !s.broken
    ensures forall t: State :: t.sink == s.sink ==> WholeRows(t, mode, rows)
  {
  }

  lemma ToldStart(mode: Mode)
    ensures ValidRows([]) && Told(PRISTINE, mode, [], 0)
  {
    var none: seq<Row> := [];
    assert none[..0] == none;
  }

  lemma HeaderThenRow(buf: bytes, header: bytes, text: bytes)
    ensures buf + header + text == buf + (header + text)
    ensures buf + ([] + text) == buf + text
  {
    assert [] + text == text;
  }

  lemma ToldLength(s: State, mode: Mode, rows: seq<Row>, k: nat)
    requires ValidRows(rows) && Told(s, mode, rows, k) && StateValid(s)
    ensures s.written + |s.buf| == |Body(mode, rows)|
  {
    hide Body;
    assert |s.sink + s.buf| == |s.sink| + |s.buf|;
  }

  /** A DataRow: the header if it is still missing, the row, then the caps. */
  method OnDataRow(c: Config, w: Writer, mode: Mode, plan: Plan, body: bytes, rowCount: nat, ghost rows: seq<Row>,
                   ghost k: nat)
    returns (r: Result, ghost k': nat)
    requires w.Valid() && ValidRows(rows) && Told(w.Contents(), mode, rows, k) && rowCount == |rows|
    modifies w
    ensures w.Valid() && old(w.sink) <= w.sink
    ensures r.Ok? || r.RowError? || r.WriteError? || r.TooLarge?
    ensures r.RowError? <==> DecodeRow(body, |plan|).None?
    ensures r.RowError? ==> !w.broken && w.sink == old(w.sink)
    ensures !r.RowError? ==>
              var all := rows + [Row(plan, DecodeRow(body, |plan|).value)];
              && ValidRows(all)
              && (r.Ok? ==> Told(w.Contents(), mode, all, k') && Under(c, mode, all))
              && (r.TooLarge? ==> Told(w.Contents(), mode, all, k') && CapHit(w.Contents(), c, mode, all, r))
              && (r.WriteError? ==> w.broken && w.sink <= Body(mode, all))
  {
    hide DecodeRow, Body, Header, RowText, Kept;
    k' := k;
    ghost var before := w.Contents();
    if rowCount == 0 {
      WriteHeader(w, mode, plan);
    }
    r := WriteRow(w, mode, plan, body, rowCount);
    if r.RowError? {
      return;
    }
    ghost var row := Row(plan, DecodeRow(body, |plan|).value);
    HeaderThenRow(before.buf, Header(mode, plan), RowText(mode, row, |rows|));
    k' := ToldStep(before, w.Contents(), mode, rows, row, k, r.Ok?);
    if r.WriteError? {
      return;
    }
    ToldLength(w.Contents(), mode, rows + [row], k');
    hide Told;
    r := CheckCaps(c, w, rowCount + 1);
  }

  /** ReadyForQuery without an error: the rest of the document, then a last flush. */
  method Finish(w: Writer, mode: Mode, plan: Plan, headerWritten: bool, ghost rows: seq<Row>, ghost k: nat)
    returns (r: Result)
    requires w.Valid() && ValidRows(rows) && Told(w.Contents(), mode, rows, k) && (headerWritten <==> rows != [])
    modifies w
    ensures w.Valid() && old(w.sink) <= w.sink
    ensures r.Ok? || r.WriteError?
    ensures r.Ok? ==> !w.broken && w.sink + w.buf == Document(mode, plan, rows) && (w.streaming ==> w.buf == [])
    ensures r.WriteError? ==> w.broken && w.sink <= Document(mode, plan, rows)
  {
    hide Body, Header, Footer, Document;
    BodyThenFooter(mode, plan, rows);
    ghost var s := w.Contents();
    if !headerWritten {
      WriteHeader(w, mode, plan);
    }
    WriteFooter(w, mode);
    assert w.sink + w.buf == Document(mode, plan, rows) by {
      assert s.sink + (s.buf + Header(mode, plan) + Footer(mode)) == (s.sink + s.buf) + (Header(mode, plan) + Footer(mode));
      assert s.sink + (s.buf + Footer(mode)) == (s.sink + s.buf) + ([] + Footer(mode));
    }
    var ok := w.Flush();
    r := if ok then Ok else WriteError;
  }

  /** The loop's state: every message so far is accounted for in the writer. */
  ghost predicate InStep(s: State, c: Config, mode: Mode, e: Execution, i: nat, plan: Plan, rows: seq<Row>, k: nat)
    requires i <= |e.msgs|
  {
    && plan == PlanAfter(e.plan, e.msgs[..i]) && rows == RowsOf(e.plan, e.msgs[..i]) && ValidRows(rows)
    && Told(s, mode, rows, k) && CapLaw(c, mode, rows) && (rows != [] ==> Under(c, mode, rows))
    && ReadOn(e, i)
  }

  lemma ReadOnMore(e: Execution, i: nat)
    requires i < |e.msgs| && ReadOn(e, i) && GoesOn(e, i)
    ensures ReadOn(e, i + 1)
  {
    hide GoesOn;
  }

  lemma InStepStart(c: Config, mode: Mode, e: Execution)
    ensures InStep(PRISTINE, c, mode, e, 0, e.plan, [], 0)
  {
    ToldStart(mode);
    assert e.msgs[..0] == [];
  }

  /** Messages that carry no row change nothing but the plan. */
  lemma InStepQuiet(s: State, c: Config, mode: Mode, e: Execution, i: nat, plan: Plan, rows: seq<Row>, k: nat)
    requires i < |e.msgs| && InStep(s, c, mode, e, i, plan, rows, k) && !e.msgs[i].DataRow? && GoesOn(e, i)
    ensures InStep(s, c, mode, e, i + 1, PlanAfter(e.plan, e.msgs[..i + 1]), rows, k)
  {
    hide Told, CapLaw, Under, PlanAfter, RowsOf, GoesOn, ReadOn;
    ReadOnMore(e, i);
    PlanStep(e.plan, e.msgs, i);
    assert rows + [] == rows;
  }

  lemma InStepRow(t: State, c: Config, mode: Mode, e: Execution, i: nat, plan: Plan, rows: seq<Row>, k: nat, s: State,
                  row: Row, k': nat)
    requires i < |e.msgs| && InStep(s, c, mode, e, i, plan, rows, k)
    requires e.msgs[i].DataRow? && DecodeRow(e.msgs[i].body, |plan|) == Some(row.cells) && row.plan == plan
    ensures PlanAfter(e.plan, e.msgs[..i + 1]) == plan
    ensures RowsOf(e.plan, e.msgs[..i + 1]) == rows + [row]
    ensures ValidRows(rows + [row]) && CapLaw(c, mode, rows + [row])
    ensures !Told(t, mode, rows + [row], k') || !Under(c, mode, rows + [row])
         || InStep(t, c, mode, e, i + 1, plan, rows + [row], k')
    ensures ReadOn(e, i + 1)
  {
    hide Told, CapLaw, Under, PlanAfter, RowsOf, DecodeRow, ReadOn;
    ReadOnMore(e, i);
    PlanStep(e.plan, e.msgs, i);
    CapGrows(c, mode, rows, row);
  }

  /** The server's answer ends before its ReadyForQuery. */
  lemma CutOffOutcome(s: State, streaming: bool, c: Config, mode: Mode, e: Execution, plan: Plan, rows: seq<Row>, k: nat)
    requires InStep(s, c, mode, e, |e.msgs|, plan, rows, k)
    ensures Outcome(s, streaming, c, mode, e, |e.msgs|, WireError) && plan == PlanAfter(e.plan, e.msgs[..|e.msgs|])
  {
    hide Told, CapLaw, Under, PlanAfter, RowsOf, WholeRows, ReadOn;
    ToldWhole(s, mode, rows, k);
  }

  /** Message `i` ends the loop without adding a row. */
  lemma HaltStep(s: State, c: Config, mode: Mode, e: Execution, i: nat, plan: Plan, rows: seq<Row>, k: nat)
    requires i < |e.msgs| && InStep(s, c, mode, e, i, plan, rows, k)
    requires !e.msgs[i].DataRow? || DecodeRow(e.msgs[i].body, |plan|).None?
    requires e.msgs[i].RowDescription? ==> e.msgs[i].plan.None?
    ensures e.msgs[..i + 1][i] == e.msgs[i] && ReadOn(e, i)
    ensures plan == PlanAfter(e.plan, e.msgs[..i + 1]) && rows == RowsOf(e.plan, e.msgs[..i + 1])
    ensures ValidRows(rows) && CapLaw(c, mode, rows) && (rows != [] ==> Under(c, mode, rows))
    ensures !s.broken && WholeRows(s, mode, rows)
    ensures forall t: State :: t.sink == s.sink ==> WholeRows(t, mode, rows)
  {
    hide CapLaw, Under, PlanAfter, DecodeRow, Told, WholeRows, RowsOf, ReadOn;
    PlanStep(e.plan, e.msgs, i);
    NoMoreRows(rows);
    ToldWhole(s, mode, rows, k);
  }

  lemma HaltOutcome(s: State, t: State, streaming: bool, c: Config, mode: Mode, e: Execution, i: nat, plan: Plan,
                    rows: seq<Row>, k: nat, r: Result)
    requires i < |e.msgs| && InStep(s, c, mode, e, i, plan, rows, k) && t.sink == s.sink && !t.broken
    requires match e.msgs[i]
      case DataRow(body) => r == RowError && DecodeRow(body, |plan|).None?
      case RowDescription(p) => r == RowError && p.None?
      case Other => r == UnexpectedMsg
      case _ => false
    ensures Outcome(t, streaming, c, mode, e, i + 1, r) && plan == PlanAfter(e.plan, e.msgs[..i + 1])
  {
    hide CapLaw, Under, PlanAfter, DecodeRow, Told, WholeRows, RowsOf, LastError, ReadOn, GoesOn, InStep;
    HaltStep(s, c, mode, e, i, plan, rows, k);
    Halts(s, c, mode, e, i, plan, rows, k);
  }

  lemma Halts(s: State, c: Config, mode: Mode, e: Execution, i: nat, plan: Plan, rows: seq<Row>, k: nat)
    requires i < |e.msgs| && InStep(s, c, mode, e, i, plan, rows, k)
    requires e.msgs[i].DataRow? ==> DecodeRow(e.msgs[i].body, |plan|).None?
    requires e.msgs[i].RowDescription? ==> e.msgs[i].plan.None?
    ensures e.msgs[i].DataRow? || e.msgs[i].RowDescription? ==> !GoesOn(e, i)
  {
    hide CapLaw, Under, PlanAfter, DecodeRow, Told, RowsOf, ReadOn;
  }

  lemma NoMoreRows(rows: seq<Row>)
    ensures rows + [] == rows
  {
  }

  lemma FailedRowOutcome(t: State, streaming: bool, c: Config, mode: Mode, e: Execution, i: nat, plan: Plan,
                         rows: seq<Row>, k': nat, r: Result)
    requires i < |e.msgs| && ValidRows(rows) && rows != [] && CapLaw(c, mode, rows)
    requires PlanAfter(e.plan, e.msgs[..i + 1]) == plan && RowsOf(e.plan, e.msgs[..i + 1]) == rows
    requires e.msgs[i].DataRow? && ReadOn(e, i + 1)
    requires (r.WriteError? && t.broken && t.sink <= Body(mode, rows))
          || (r.TooLarge? && Told(t, mode, rows, k') && CapHit(t, c, mode, rows, r))
    ensures Outcome(t, streaming, c, mode, e, i + 1, r)
  {
    hide CapLaw, Under, PlanAfter, RowsOf, Body, Document, GoesOn;
    assert GoesOn(e, i);
    if r.WriteError? {
      BodyThenFooter(mode, plan, rows);
    } else {
      ToldWhole(t, mode, rows, k');
    }
  }

  /** The loop's DataRow case. */
  method RowMessage(c: Config, w: Writer, mode: Mode, ghost e: Execution, ghost i: nat, body: bytes, plan: Plan,
                    rowCount: nat, ghost rows: seq<Row>, ghost k: nat)
    returns (r: Result, ghost rows': seq<Row>, ghost k': nat)
    requires w.Valid() && i < |e.msgs| && e.msgs[i] == DataRow(body)
    requires InStep(w.Contents(), c, mode, e, i, plan, rows, k) && rowCount == |rows|
    modifies w
    ensures w.Valid() && plan == PlanAfter(e.plan, e.msgs[..i + 1])
    ensures r.Ok? ==> InStep(w.Contents(), c, mode, e, i + 1, plan, rows', k') && |rows'| == |rows| + 1
    ensures !r.Ok? ==> Outcome(w.Contents(), w.streaming, c, mode, e, i + 1, r) && !r.ServerError?
  {
    hide Told, CapLaw, Under, PlanAfter, RowsOf, DecodeRow, Outcome, Body, InStep, WholeRows, ReadOn, CapHit, GoesOn;
    ghost var s := w.Contents();
    InStepTold(s, c, mode, e, i, plan, rows, k);
    rows' := rows;
    r, k' := OnDataRow(c, w, mode, plan, body, rowCount, rows, k);
    if r.RowError? {
      HaltOutcome(s, w.Contents(), w.streaming, c, mode, e, i, plan, rows, k, r);
      return;
    }
    ghost var row := Row(plan, DecodeRow(body, |plan|).value);
    InStepRow(w.Contents(), c, mode, e, i, plan, rows, k, s, row, k');
    rows' := rows + [row];
    if !r.Ok? {
      FailedRowOutcome(w.Contents(), w.streaming, c, mode, e, i, plan, rows', k', r);
    }
  }

  /** The loop's ReadyForQuery case. */
  method ReadyMessage(ghost c: Config, w: Writer, mode: Mode, ghost e: Execution, ghost i: nat, plan: Plan,
                      pgError: Option<string>, headerWritten: bool, ghost rows: seq<Row>, ghost k: nat)
    returns (r: Result)
    requires w.Valid() && i < |e.msgs| && e.msgs[i].ReadyForQuery?
    requires InStep(w.Contents(), c, mode, e, i, plan, rows, k)
    requires (headerWritten <==> rows != []) && pgError == LastError(e.msgs[..i + 1])
    modifies w
    ensures w.Valid() && Outcome(w.Contents(), w.streaming, c, mode, e, i + 1, r)
    ensures plan == PlanAfter(e.plan, e.msgs[..i + 1])
  {
    hide Told, CapLaw, Under, PlanAfter, RowsOf, DecodeRow, Outcome, Body, LastError, InStep, WholeRows, ReadOn;
    ghost var s := w.Contents();
    if pgError.Some? {
      ErrorOutcome(s, w.streaming, c, mode, e, i, plan, rows, k);
      return ServerError(pgError.value);
    }
    InStepTold(s, c, mode, e, i, plan, rows, k);
    HaltStep(s, c, mode, e, i, plan, rows, k);
    r := Finish(w, mode, plan, headerWritten, rows, k);
    FinishOutcome(w.Contents(), w.streaming, c, mode, e, i, plan, rows, r);
  }

  /** Bind, Execute and Sync have been sent; this reads the answer. */
  method BindExecute(c: Config, w: Writer, mode: Mode, e: Execution)
    returns (r: Result, plan: Plan, read: nat, ghost used: nat)
    requires w.Valid() && w.Contents() == PRISTINE
    modifies w
    ensures w.Valid() && used <= read <= |e.msgs|
    ensures Outcome(w.Contents(), w.streaming, c, mode, e, used, r)
    ensures plan == PlanAfter(e.plan, e.msgs[..used])
    ensures r.TooLarge? ==> read == |e.msgs| || e.msgs[read - 1].ReadyForQuery?
    ensures !r.TooLarge? ==> read == used
  {
    hide Told, CapLaw, Under, PlanAfter, RowsOf, DecodeRow, Outcome, LastError, InStep, GoesOn;
    plan, read, used := e.plan, 0, 0;
    var rowCount := 0;
    var headerWritten := false;
    var pgError: Option<string> := None;
    ghost var rows: seq<Row> := [];
    ghost var k: nat := 0;
    InStepStart(c, mode, e);
    NoErrorYet(e.msgs);
    while read < |e.msgs|
      invariant w.Valid() && used == read <= |e.msgs|
      invariant InStep(w.Contents(), c, mode, e, read, plan, rows, k)
      invariant rowCount == |rows| && (headerWritten <==> rows != [])
      invariant pgError == LastError(e.msgs[..read])
    {
      ghost var i, s := read, w.Contents();
      ErrorStep(e.msgs, i);
      if !e.msgs[i].DataRow? && GoesOn(e, i) {
        InStepQuiet(s, c, mode, e, i, plan, rows, k);
      }
      QuietMessage(s, c, mode, e, i, plan, rows, k);
      var msg := e.msgs[read];
      read := read + 1;
      used := read;
      match msg {
        case DataRow(body) =>
          r, rows, k := RowMessage(c, w, mode, e, i, body, plan, rowCount, rows, k);
          if !r.Ok? {
            if r.TooLarge? {
              read := AbortOversize(e.msgs, read);
            }
            return;
          }
          headerWritten := true;
          rowCount := rowCount + 1;
        case RowDescription(newPlan) =>
          if newPlan.None? {
            r := RowError;
            HaltOutcome(s, s, w.streaming, c, mode, e, i, plan, rows, k, r);
            return;
          }
          plan := newPlan.value;
        case ErrorMsg(code) =>
          pgError := Some(code);
        case ReadyForQuery =>
          r := ReadyMessage(c, w, mode, e, i, plan, pgError, headerWritten, rows, k);
          return;
        case Other =>
          r := UnexpectedMsg;
          HaltOutcome(s, s, w.streaming, c, mode, e, i, plan, rows, k, r);
          return;
        case _ =>
      }
    }
    r := WireError;
    CutOffOutcome(w.Contents(), w.streaming, c, mode, e, plan, rows, k);
  }

  lemma ErrorStep(msgs: seq<Msg>, i: nat)
    requires i < |msgs|
    ensures LastError(msgs[..i + 1]) == if msgs[i].ErrorMsg? then Some(msgs[i].code) else LastError(msgs[..i])
  {
    assert msgs[..i + 1][..i] == msgs[..i];
  }

  /** Which messages go on quietly, and what plan they leave in force. */
  lemma QuietMessage(s: State, c: Config, mode: Mode, e: Execution, i: nat, plan: Plan, rows: seq<Row>, k: nat)
    requires i < |e.msgs| && InStep(s, c, mode, e, i, plan, rows, k)
    ensures !s.broken
    ensures match e.msgs[i]
            case RowDescription(p) =>
              (GoesOn(e, i) <==> p.Some?) && (p.Some? ==> PlanAfter(e.plan, e.msgs[..i + 1]) == p.value)
            case DataRow(_) => true
            case ReadyForQuery => true
            case Other => true
            case _ => GoesOn(e, i) && PlanAfter(e.plan, e.msgs[..i + 1]) == plan
  {
    hide CapLaw, Under, RowsOf, DecodeRow, ReadOn;
    assert e.msgs[..i + 1][..i] == e.msgs[..i];
  }

  lemma NoErrorYet(msgs: seq<Msg>)
    ensures LastError(msgs[..0]) == None
  {
  }

  lemma InStepTold(s: State, c: Config, mode: Mode, e: Execution, i: nat, plan: Plan, rows: seq<Row>, k: nat)
    requires i <= |e.msgs| && InStep(s, c, mode, e, i, plan, rows, k)
    ensures ValidRows(rows) && Told(s, mode, rows, k) && plan == PlanAfter(e.plan, e.msgs[..i])
  {
  }

  lemma ErrorOutcome(s: State, streaming: bool, c: Config, mode: Mode, e: Execution, i: nat, plan: Plan,
                     rows: seq<Row>, k: nat)
    requires i < |e.msgs| && e.msgs[i].ReadyForQuery? && InStep(s, c, mode, e, i, plan, rows, k)
    requires LastError(e.msgs[..i + 1]).Some?
    ensures Outcome(s, streaming, c, mode, e, i + 1, ServerError(LastError(e.msgs[..i + 1]).value))
    ensures plan == PlanAfter(e.plan, e.msgs[..i + 1])
  {
    hide Told, CapLaw, Under, PlanAfter, RowsOf, LastError, WholeRows, ReadOn, GoesOn, DecodeRow, InStep;
    HaltStep(s, c, mode, e, i, plan, rows, k);
  }

  lemma FinishOutcome(t: State, streaming: bool, c: Config, mode: Mode, e: Execution, i: nat, plan: Plan,
                      rows: seq<Row>, r: Result)
    requires i < |e.msgs| && e.msgs[i].ReadyForQuery? && LastError(e.msgs[..i + 1]).None?
    requires ValidRows(rows) && plan == PlanAfter(e.plan, e.msgs[..i + 1]) && rows == RowsOf(e.plan, e.msgs[..i + 1])
    requires CapLaw(c, mode, rows) && (rows != [] ==> Under(c, mode, rows)) && ReadOn(e, i)
    requires (r.Ok? && !t.broken && t.sink + t.buf == Document(mode, plan, rows) && (streaming ==> t.buf == []))
          || (r.WriteError? && t.broken && t.sink <= Document(mode, plan, rows))
    ensures Outcome(t, streaming, c, mode, e, i + 1, r)
  {
    hide CapLaw, Under, PlanAfter, RowsOf, LastError, Document, ReadOn, GoesOn;
    assert e.msgs[..i + 1][i] == e.msgs[i];
  }

  // ---- The two retry loops --------------------------------------------------------------------

  /** The server's answer to a Parse. */
  datatype Prepared = Ready(plan: Plan) | Refused(code: string) | NoRowDescription | Lost

  /** One execution and how much of the server's answer to it was read. */
  datatype Answer = Answer(e: Execution, used: nat)

  /** The cache entry of a statement and what the server will answer: Parses, then executions. */
  datatype Side = Side(cached: Option<Plan>, prepares: seq<Prepared>, answers: seq<seq<Msg>>)

  /** One pass of the inner loop: what it met and left behind, and what the writer then held. */
  datatype Attempt = Attempt(before: Side, after: Side, shown: State, last: Option<Answer>, r: Result)

  /** A server that has gone away answers nothing. */
  function FirstPrepared(prepares: seq<Prepared>): Prepared { if prepares == [] then Lost else prepares[0] }

  function FirstAnswer(answers: seq<seq<Msg>>): seq<Msg> { if answers == [] then [] else answers[0] }

  function Later<T>(xs: seq<T>): seq<T> { if xs == [] then [] else xs[1..] }

  function PrepareResult(p: Prepared): Result
    requires !p.Ready?
  {
    match p
    case Refused(code) => ServerError(code)
    case NoRowDescription => NoPlan
    case Lost => WireError
  }

  /** The plan an attempt executes: the cached one, or the one it has just prepared. */
  function PlanFor(side: Side): Option<Plan>
  {
    if side.cached.Some? then side.cached
    else
      match FirstPrepared(side.prepares)
      case Ready(plan) => Some(plan)
      case _ => None
  }

  /** An attempt without a plan shows nothing; any other shows its own execution and nothing else. */
  ghost predicate Attempted(a: Attempt, streaming: bool, c: Config, mode: Mode)
  {
    var prepares := if a.before.cached.Some? then a.before.prepares else Later(a.before.prepares);
    match PlanFor(a.before)
    case None =>
      && a.after == Side(None, prepares, a.before.answers) && a.last == None && a.shown == PRISTINE
      && a.r == PrepareResult(FirstPrepared(a.before.prepares))
    case Some(plan) =>
      && a.last.Some? && StateValid(a.shown)
      && var Answer(e, used) := a.last.value;
         && e == Execution(plan, FirstAnswer(a.before.answers)) && used <= |e.msgs|
         && Outcome(a.shown, streaming, c, mode, e, used, a.r)
         && a.after == Side(Some(PlanAfter(plan, e.msgs[..used])), prepares, Later(a.before.answers))
  }

  /** The statement was cached, the server no longer knows it, and nothing has been flushed. */
  predicate Again(a: Attempt) { a.before.cached.Some? && IsStale(a.r) && !a.shown.committed }

  /** runCached: a second attempt exactly after such a first one, from a fresh Parse. */
  ghost predicate Round(tries: seq<Attempt>, streaming: bool, c: Config, mode: Mode)
  {
    && 1 <= |tries| <= 2 && (|tries| == 2 <==> Again(tries[0]))
    && (forall i :: 0 <= i < |tries| ==> Attempted(tries[i], streaming, c, mode))
    && (|tries| == 2 ==> tries[1].before == tries[0].after.(cached := None))
  }

  predicate Retryable(c: Config, a: Attempt)
  {
    c.retryOnSerialization && IsRetryable(a.r) && !a.shown.committed
  }

  const MAX_RETRIES := 3

  /** `ends` gives the context's state at each of the two checks of every round. */
  predicate GoesRound(c: Config, a: Attempt, i: nat, ends: nat -> bool)
  {
    i + 1 < MAX_RETRIES && Retryable(c, a) && !ends(2 * i) && !ends(2 * i + 1)
  }

  function Final(tries: seq<Attempt>): Attempt
    requires tries != []
  {
    tries[|tries| - 1]
  }

  /** runQueryInner: another round exactly when the last one may and should be repeated. */
  ghost predicate Rounds(rounds: seq<seq<Attempt>>, streaming: bool, c: Config, mode: Mode, ends: nat -> bool)
  {
    && 1 <= |rounds| <= MAX_RETRIES
    && (forall i :: 0 <= i < |rounds| ==> Round(rounds[i], streaming, c, mode))
    && (forall i :: 0 <= i < |rounds| ==> (i < |rounds| - 1 <==> GoesRound(c, Final(rounds[i]), i, ends)))
    && (forall i :: 0 < i < |rounds| ==> rounds[i][0].before == Final(rounds[i - 1]).after)
  }

  /** Rounds that all went on to another one. */
  ghost predicate Unfinished(rounds: seq<seq<Attempt>>, streaming: bool, c: Config, mode: Mode, ends: nat -> bool,
                             start: Side, now: Side)
  {
    && (forall i :: 0 <= i < |rounds| ==> Round(rounds[i], streaming, c, mode))
    && (forall i :: 0 <= i < |rounds| ==> GoesRound(c, Final(rounds[i]), i, ends))
    && (forall i :: 0 < i < |rounds| ==> rounds[i][0].before == Final(rounds[i - 1]).after)
    && (if rounds == [] then now == start
        else rounds[0][0].before == start && Final(rounds[|rounds| - 1]).after == now)
  }

  /** One more round either ends the loop or leaves it unfinished again. */
  lemma OneMoreRound(rounds: seq<seq<Attempt>>, tries: seq<Attempt>, streaming: bool, c: Config, mode: Mode,
                     ends: nat -> bool, start: Side, now: Side)
    requires Unfinished(rounds, streaming, c, mode, ends, start, now) && |rounds| < MAX_RETRIES
    requires Round(tries, streaming, c, mode) && tries[0].before == now
    ensures var all := rounds + [tries];
      && all[0][0].before == start
      && (if GoesRound(c, Final(tries), |rounds|, ends)
          then Unfinished(all, streaming, c, mode, ends, start, Final(tries).after)
          else Rounds(all, streaming, c, mode, ends))
  {
    hide GoesRound, Attempted, Again;
    var all := rounds + [tries];
    forall i | 0 <= i < |all| ensures Round(all[i], streaming, c, mode) {
    }
    forall i | 0 <= i < |rounds| ensures GoesRound(c, Final(all[i]), i, ends) {
      assert all[i] == rounds[i];
    }
    forall i | 0 < i < |all| ensures all[i][0].before == Final(all[i - 1]).after {
      assert all[i - 1] == rounds[i - 1];
    }
  }

  /** The context ended while the loop was waiting for the next round: the buffer is already reset. */
  predicate EndedWaiting(c: Config, a: Attempt, i: nat, ends: nat -> bool)
  {
    i + 1 < MAX_RETRIES && Retryable(c, a) && !ends(2 * i) && ends(2 * i + 1)
  }

  function Ran(tries: seq<Attempt>): nat
  {
    if tries == [] then 0 else Ran(tries[..|tries| - 1]) + (if tries[|tries| - 1].last.Some? then 1 else 0)
  }

  function RanInAll(rounds: seq<seq<Attempt>>): nat
  {
    if rounds == [] then 0 else RanInAll(rounds[..|rounds| - 1]) + Ran(rounds[|rounds| - 1])
  }

  lemma {:induction false} RanAtMost(tries: seq<Attempt>)
    ensures Ran(tries) <= |tries|
  {
    if tries != [] {
      RanAtMost(tries[..|tries| - 1]);
    }
  }

  lemma RanMore(tries: seq<Attempt>, a: Attempt)
    ensures Ran(tries + [a]) == Ran(tries) + (if a.last.Some? then 1 else 0)
  {
    assert (tries + [a])[..|tries|] == tries;
  }

  lemma RanInMore(rounds: seq<seq<Attempt>>, tries: seq<Attempt>)
    ensures RanInAll(rounds + [tries]) == RanInAll(rounds) + Ran(tries)
  {
    assert (rounds + [tries])[..|rounds|] == rounds;
  }

  /** A server error leaves the destination usable. */
  lemma NotBroken(a: Attempt, streaming: bool, c: Config, mode: Mode)
    requires Attempted(a, streaming, c, mode) && a.r.ServerError?
    ensures !a.shown.broken
  {
  }

  /** One statement's view of the client. */
  class Client {
    const config: Config
    var cached: Option<Plan>
    var prepares: seq<Prepared>
    var answers: seq<seq<Msg>>
    var executions: nat
    var lastRetries: nat

    ghost function View(): Side
      reads this
    {
      Side(cached, prepares, answers)
    }

    constructor (config: Config, cached: Option<Plan>, prepares: seq<Prepared>, answers: seq<seq<Msg>>)
      ensures this.config == config && View() == Side(cached, prepares, answers)
      ensures executions == 0 && lastRetries == 0
    {
      this.config, this.cached, this.prepares, this.answers := config, cached, prepares, answers;
      executions, lastRetries := 0, 0;
    }

    method PrepareAndDescribe() returns (p: Prepared)
      modifies `prepares
      ensures p == FirstPrepared(old(prepares)) && prepares == Later(old(prepares))
    {
      if prepares == [] {
        return Lost;
      }
      p := prepares[0];
      prepares := prepares[1..];
    }

    method Execute(plan: Plan) returns (e: Execution)
      modifies `answers, `executions
      ensures executions == old(executions) + 1 && e == Execution(plan, FirstAnswer(old(answers)))
      ensures answers == Later(old(answers))
    {
      executions := executions + 1;
      if answers == [] {
        return Execution(plan, []);
      }
      e := Execution(plan, answers[0]);
      answers := answers[1..];
    }

    /** One pass of runCached's loop. */
    method TryOnce(w: Writer, mode: Mode) returns (r: Result, ghost a: Attempt)
      requires w.Valid() && w.Contents() == PRISTINE
      modifies w, `cached, `prepares, `answers, `executions
      ensures w.Valid() && Attempted(a, w.streaming, config, mode)
      ensures a.before == old(View()) && a.after == View() && a.shown == w.Contents() && a.r == r
      ensures executions == old(executions) + (if a.last.Some? then 1 else 0)
    {
      hide Outcome;
      if cached.None? {
        var p := PrepareAndDescribe();
        if !p.Ready? {
          r := PrepareResult(p);
          a := Attempt(old(View()), View(), PRISTINE, None, r);
          return;
        }
        cached := Some(p.plan);
      }
      var e := Execute(cached.value);
      var plan, read;
      ghost var used;
      r, plan, read, used := BindExecute(config, w, mode, e);
      cached := Some(plan);
      a := Attempt(old(View()), View(), w.Contents(), Some(Answer(e, used)), r);
    }

    method RunCached(w: Writer, mode: Mode) returns (r: Result, ghost tries: seq<Attempt>)
      requires w.Valid() && w.Contents() == PRISTINE
      modifies w, `cached, `prepares, `answers, `executions
      ensures w.Valid() && Round(tries, w.streaming, config, mode)
      ensures tries[0].before == old(View())
      ensures Final(tries).after == View() && Final(tries).shown == w.Contents() && Final(tries).r == r
      ensures executions == old(executions) + Ran(tries)
    {
      hide Attempted, Ran;
      tries := [];
      RanNone();
      for attempt := 0 to 2
        invariant w.Valid() && w.Contents() == PRISTINE
        invariant attempt == |tries| < 2 && executions == old(executions) + Ran(tries)
        invariant attempt == 0 ==> View() == old(View())
        invariant attempt == 1 ==> Attempted(tries[0], w.streaming, config, mode) && Again(tries[0])
                                   && tries[0].before == old(View()) && View() == tries[0].after.(cached := None)
      {
        var fromCache := cached.Some?;
        ghost var a;
        r, a := TryOnce(w, mode);
        RanMore(tries, a);
        tries := tries + [a];
        if attempt == 0 && fromCache && IsStale(r) && !w.Committed() {
          NotBroken(a, w.streaming, config, mode);
          cached := None;
          w.Reset();
          continue;
        }
        return;
      }
    }

    /**
     At most three rounds. Whenever another round starts nothing has been written, so what the
     caller's writer ends up with comes from one execution.
    */
    method RunQueryInner(w: Writer, mode: Mode, ends: nat -> bool)
      returns (r: Result, ghost rounds: seq<seq<Attempt>>)
      requires w.Valid() && w.Contents() == PRISTINE
      modifies w, `cached, `prepares, `answers, `executions, `lastRetries
      ensures w.Valid() && Rounds(rounds, w.streaming, config, mode, ends)
      ensures rounds[0][0].before == old(View())
      ensures var i := |rounds| - 1;
              var a := Final(rounds[i]);
              var ended := EndedWaiting(config, a, i, ends);
        && a.after == View() && a.r == r
        && w.Contents() == (if ended then PRISTINE else a.shown)
        && lastRetries == old(lastRetries) + i + (if ended then 1 else 0)
      ensures executions == old(executions) + RanInAll(rounds) <= old(executions) + 6
    {
      hide Attempted, Ran, RanInAll, Unfinished, Rounds, Round, IsRetryable;
      rounds := [];
      NoRoundYet(w.streaming, config, mode, ends, View());
      var attempt := 0;
      while true
        invariant 0 <= attempt == |rounds| < MAX_RETRIES
        invariant w.Valid() && w.Contents() == PRISTINE
        invariant executions == old(executions) + RanInAll(rounds) <= old(executions) + 2 * attempt
        invariant lastRetries == old(lastRetries) + attempt
        invariant Unfinished(rounds, w.streaming, config, mode, ends, old(View()), View())
        decreases MAX_RETRIES - attempt
      {
        ghost var tries;
        r, tries := RunCached(w, mode);
        TwoAtMost(tries, w.streaming, config, mode);
        OneMoreRound(rounds, tries, w.streaming, config, mode, ends, old(View()), tries[0].before);
        RanInMore(rounds, tries);
        rounds := rounds + [tries];
        if r.Ok? || !config.retryOnSerialization {
          OkIsFinal(r);
          return;
        }
        if attempt + 1 >= MAX_RETRIES || !IsRetryable(r) || w.Committed() {
          return;
        }
        if ends(2 * attempt) {
          return;
        }
        RetryKeeps(tries, w.streaming, config, mode);
        w.Reset();
        lastRetries := lastRetries + 1;
        if ends(2 * attempt + 1) {
          return;
        }
        attempt := attempt + 1;
      }
    }
  }

  lemma OkIsFinal(r: Result)
    ensures r.Ok? ==> !IsRetryable(r)
  {
  }

  lemma NoRoundYet(streaming: bool, c: Config, mode: Mode, ends: nat -> bool, start: Side)
    ensures Unfinished([], streaming, c, mode, ends, start, start) && RanInAll([]) == 0
  {
  }

  lemma TwoAtMost(tries: seq<Attempt>, streaming: bool, c: Config, mode: Mode)
    requires Round(tries, streaming, c, mode)
    ensures tries != [] && Ran(tries) <= 2
  {
    RanAtMost(tries);
  }

  lemma RetryKeeps(tries: seq<Attempt>, streaming: bool, c: Config, mode: Mode)
    requires Round(tries, streaming, c, mode) && IsRetryable(Final(tries).r)
    ensures !Final(tries).shown.broken
  {
    NotBroken(Final(tries), streaming, c, mode);
  }

  lemma RanNone()
    ensures Ran([]) == 0
  {
  }

  /** Attempt `j` of round `i` is followed by another one. */
  predicate IsRepeated(rounds: seq<seq<Attempt>>, i: nat, j: nat)
    requires i < |rounds| && j < |rounds[i]|
  {
    i < |rounds| - 1 || j < |rounds[i]| - 1
  }

  /** The messages of the server's answer that an attempt has read. */
  function Seen(a: Attempt): seq<Msg>
    requires a.last.Some? && a.last.value.used <= |a.last.value.e.msgs|
  {
    a.last.value.e.msgs[..a.last.value.used]
  }

  /** The server reported this error: to the Parse, or during the execution. */
  ghost predicate ToldBy(a: Attempt, code: string)
  {
    match PlanFor(a.before)
    case None => FirstPrepared(a.before.prepares) == Refused(code)
    case Some(_) =>
      a.last.Some? && a.last.value.used <= |a.last.value.e.msgs| && LastError(Seen(a)) == Some(code)
  }

  lemma FailedUnshown(a: Attempt, streaming: bool, c: Config, mode: Mode)
    requires Attempted(a, streaming, c, mode) && a.r.ServerError? && !a.shown.committed
    ensures a.shown.sink == [] && ToldBy(a, a.r.code)
  {
    hide CapLaw, Under, RowsOf, PlanAfter, LastError, WholeRows, ReadOn;
  }

  /**
   Another round follows if and only if the retry switch is on, the server reported 40001 or 40P01,
   nothing has been flushed, and the context is alive at both checks; and never behind a third one.
  */
  lemma RetriedIff(rounds: seq<seq<Attempt>>, streaming: bool, c: Config, mode: Mode, ends: nat -> bool, i: nat)
    requires Rounds(rounds, streaming, c, mode, ends) && i < |rounds|
    ensures |rounds| <= 3
    ensures var a := Final(rounds[i]);
      i + 1 < |rounds| <==>
        && i < 2 && c.retryOnSerialization && !a.shown.committed && !ends(2 * i) && !ends(2 * i + 1)
        && (a.r == ServerError("40001") || a.r == ServerError("40P01"))
    ensures i + 1 < |rounds| ==> Final(rounds[i]).shown.sink == [] && rounds[i + 1][0].before == Final(rounds[i]).after
  {
    var a := Final(rounds[i]);
    assert i < |rounds| - 1 <==> GoesRound(c, a, i, ends);
    if i + 1 < |rounds| {
      assert Round(rounds[i], streaming, c, mode);
      FailedUnshown(a, streaming, c, mode);
    }
  }

  /**
   A second attempt follows if and only if the statement was cached, the server reported 26000 and
   nothing has been flushed; it starts from an empty cache entry.
  */
  lemma PreparedAgainIff(tries: seq<Attempt>, streaming: bool, c: Config, mode: Mode)
    requires Round(tries, streaming, c, mode)
    ensures |tries| == (if tries[0].before.cached.Some? && tries[0].r == ServerError("26000") && !tries[0].shown.committed
                        then 2 else 1)
    ensures |tries| == 2 ==> tries[0].shown.sink == [] && tries[1].before == tries[0].after.(cached := None)
  {
    if |tries| == 2 {
      FailedUnshown(tries[0], streaming, c, mode);
    }
  }

  /** Without a plan there is no execution: the error is what the server said to the Parse. */
  lemma UnpreparedIs(a: Attempt, streaming: bool, c: Config, mode: Mode)
    requires Attempted(a, streaming, c, mode) && a.before.cached.None?
    ensures a.last.None? <==> a.before.prepares == [] || !a.before.prepares[0].Ready?
    ensures a.last.None? ==> a.shown == PRISTINE && a.after.cached.None? && a.after.answers == a.before.answers
    ensures a.last.None? ==>
      a.r == if a.before.prepares == [] then WireError
             else
               match a.before.prepares[0]
               case Refused(code) => ServerError(code)
               case NoRowDescription => NoPlan
               case _ => WireError
    ensures a.last.Some? ==> a.last.value.e.plan == a.before.prepares[0].plan
  {
    hide Outcome;
  }

  /** A successful execution met no error; a failed one reports the last error it met. */
  lemma ErrorsReported(a: Attempt, streaming: bool, c: Config, mode: Mode)
    requires Attempted(a, streaming, c, mode) && a.last.Some?
    ensures a.last.value.used <= |a.last.value.e.msgs|
    ensures a.r.Ok? ==> forall i :: 0 <= i < |Seen(a)| ==> !Seen(a)[i].ErrorMsg?
    ensures a.r.ServerError? ==>
              exists i :: 0 <= i < |Seen(a)| && Seen(a)[i] == ErrorMsg(a.r.code)
                          && forall j :: i < j < |Seen(a)| ==> !Seen(a)[j].ErrorMsg?
  {
    hide CapLaw, Under, RowsOf, PlanAfter, LastError, WholeRows, ReadOn, GoesOn, Document, Body;
    LastErrorIs(Seen(a));
  }

  /**
   Output is never duplicated or mixed: every attempt but the last had put nothing into the
   destination, and ended in an error of the server that calls for another attempt.
  */
  lemma OneAttemptShown(rounds: seq<seq<Attempt>>, streaming: bool, c: Config, mode: Mode, ends: nat -> bool,
                        i: nat, j: nat)
    requires Rounds(rounds, streaming, c, mode, ends)
    requires i < |rounds| && j < |rounds[i]| && IsRepeated(rounds, i, j)
    ensures var a := rounds[i][j];
      && a.shown.sink == [] && a.r.ServerError? && ToldBy(a, a.r.code)
      && (if j < |rounds[i]| - 1 then IsStale(a.r) && a.before.cached.Some? else IsRetryable(a.r))
  {
    hide Attempted, ToldBy;
    assert Round(rounds[i], streaming, c, mode);
    if j == |rounds[i]| - 1 {
      assert GoesRound(c, Final(rounds[i]), i, ends);
    }
    FailedUnshown(rounds[i][j], streaming, c, mode);
  }

  // ---- What a successful response says ----------------------------------------------------------

  predicate FixedPlan(msgs: seq<Msg>) { forall i :: 0 <= i < |msgs| ==> !msgs[i].RowDescription? }

  lemma {:induction false} FixedPlanRows(plan: Plan, msgs: seq<Msg>)
    requires FixedPlan(msgs)
    ensures PlanAfter(plan, msgs) == plan && SamePlan(plan, RowsOf(plan, msgs))
  {
    if msgs != [] {
      FixedPlanRows(plan, msgs[..|msgs| - 1]);
    }
  }

  /** Every numeric cell in these DataRow bodies is what a server sends. */
  predicate NormalSent(plan: Plan, sent: seq<bytes>)
  {
    forall j :: 0 <= j < |sent| && DecodeRow(sent[j], |plan|).Some? ==> NormalCells(plan, DecodeRow(sent[j], |plan|).value)
  }

  /**
   A reader finds in the response one row per DataRow the server sent, in order, with its cells,
   under the columns of the plan that was cached or has just been prepared.
  */
  lemma ResponseReadsBack(a: Attempt, streaming: bool, c: Config, mode: Mode) returns (plan: Plan, rows: seq<Row>)
    requires Attempted(a, streaming, c, mode) && a.r.Ok? && FixedPlan(Seen(a))
    requires NormalSent(PlanFor(a.before).value, Sent(Seen(a)))
    ensures PlanFor(a.before) == Some(plan) && SamePlan(plan, rows) && Seen(a) <= FirstAnswer(a.before.answers)
    ensures var sent := Sent(Seen(a));
            |rows| == |sent| && forall j :: 0 <= j < |sent| ==> DecodeRow(sent[j], |plan|) == Some(rows[j].cells)
    ensures var text := a.shown.sink + a.shown.buf;
            match mode
            case ModeArray => ReadJsonArray(text) == Some(RowPairs(plan, rows))
            case ModeNDJSON => ReadNdjson(text) == Some(RowPairs(plan, rows))
            case ModeColumnar => ReadColumnar(text) == Some((Names(plan), RowValues(plan, rows)))
            case ModeTOON => ReadToon(text) == Some((Names(plan), RowValues(plan, rows)))
    ensures streaming ==> a.shown.sink + a.shown.buf == a.shown.sink
  {
    hide Document, RowsOf, PlanAfter, ReadJsonArray, ReadNdjson, ReadColumnar, ReadToon, LastError, CapLaw, Under,
         DecodeRow, Sent, ReadOn, NormalCells;
    var Answer(e, used) := a.last.value;
    plan, rows := e.plan, RowsOf(e.plan, Seen(a));
    FixedPlanRows(plan, Seen(a));
    EveryRowDecoded(e, used);
    match mode
    case ModeArray => JsonArrayRoundTrip(plan, rows);
    case ModeNDJSON => NdjsonRoundTrip(plan, rows);
    case ModeColumnar => ColumnarRoundTrip(plan, rows);
    case ModeTOON => ToonDocumentRoundTrip(plan, rows);
  }
}
