/**
 COPY TO in binary format (pgz/copy_to.go): the header is dropped, however it is split over
 messages, and each tuple goes to a handler through a cursor with a sticky error.
*/
module CopyOut {
  import opened Bytes
  import opened CopyIn

  // ---- The row cursor ------------------------------------------------------------------

  datatype Kind = KInt2 | KInt4 | KInt8 | KBool | KText | KUuid

  datatype Cursor = Cursor(body: bytes, failed: bool)

  function Zero(kind: Kind): Field
  {
    match kind
    case KInt2 => Int2(0)
    case KInt4 => Int4(0)
    case KInt8 => Int8(0)
    case KBool => Bool(false)
    case KText => Text([])
    case KUuid => Uuid(seq(16, _ => 0))
  }

  /** The wire length of a type, if it is fixed. */
  function Width(kind: Kind): Option<nat>
  {
    match kind
    case KInt2 => Some(2)
    case KInt4 => Some(4)
    case KInt8 => Some(8)
    case KBool => Some(1)
    case KText => None
    case KUuid => Some(16)
  }

  function Decode(kind: Kind, b: bytes): Field
    requires Width(kind).Some? ==> |b| == Width(kind).value
  {
    match kind
    case KInt2 => Int2(ReadI16(b))
    case KInt4 => Int4(ReadI32(b))
    case KInt8 => Int8(ReadI64(b))
    case KBool => Bool(b[0] != 0)
    case KText => Text(b)
    case KUuid => Uuid(b)
  }

  /** One typed read: its value (Null for a NULL field) and the cursor after it. */
  function Access(kind: Kind, c: Cursor): (r: (Field, Cursor))
    ensures |r.1.body| <= |c.body|
  {
    if c.failed then (Zero(kind), c)
    else if |c.body| < 4 then (Zero(kind), c.(failed := true))
    else
      var n := ReadI32(c.body[..4]);
      var b := c.body[4..];
      if n == -1 then (Null, Cursor(b, false))
      else if n < 0 || n > |b| || (Width(kind).Some? && n != Width(kind).value) then (Zero(kind), Cursor(b, true))
      else (Decode(kind, b[..n]), Cursor(b[n..], false))
  }

  class CopyReader {
    const fieldCount: int
    var body: bytes
    var failed: bool

    function Contents(): Cursor
      reads this
    {
      Cursor(body, failed)
    }

    constructor (fieldCount: int)
      ensures this.fieldCount == fieldCount
    {
      this.fieldCount := fieldCount;
      body, failed := [], false;
    }

    method Reset(body: bytes)
      modifies this
      ensures Contents() == Cursor(body, false)
    {
      this.body := body;
      failed := false;
    }

    /** The length of the next field's value, or that it is NULL; after an error both are unset. */
    method FieldHeader() returns (n: int, isNull: bool)
      modifies this
      ensures old(failed) ==> Contents() == old(Contents()) && n == 0 && !isNull
      ensures !old(failed) ==>
        if |old(body)| < 4 then Contents() == old(Contents()).(failed := true) && n == 0 && !isNull
        else
          var l := ReadI32(old(body)[..4]);
          && body == old(body)[4..]
          && isNull == (l == -1) && failed == (l != -1 && (l < 0 || l > |body|))
          && n == (if isNull || failed then 0 else l)
    {
      n, isNull := 0, false;
      if failed {
        return;
      }
      if |body| < 4 {
        failed := true;
        return;
      }
      var l := ReadI32(body[..4]);
      body := body[4..];
      if l == -1 {
        isNull := true;
        return;
      }
      if l < 0 || l > |body| {
        failed := true;
        return;
      }
      n := l;
    }

    /** Peeks: a truncated header is an error, anything else leaves the cursor alone. */
    method IsNull() returns (b: bool)
      modifies `failed
      ensures failed == (old(failed) || |body| < 4)
      ensures b == (!failed && ReadI32(body[..4]) == -1)
    {
      if failed {
        return false;
      }
      if |body| < 4 {
        failed := true;
        return false;
      }
      b := ReadI32(body[..4]) == -1;
    }

    /** Consumes a NULL field if that is what comes next. */
    method SkipNull() returns (b: bool)
      modifies `body
      ensures b == (!failed && |old(body)| >= 4 && ReadI32(old(body)[..4]) == -1)
      ensures body == if b then old(body)[4..] else old(body)
    {
      if failed || |body| < 4 {
        return false;
      }
      if ReadI32(body[..4]) == -1 {
        body := body[4..];
        return true;
      }
      b := false;
    }

    /** Int2, Int4, Int8, Bool, Text and UUID: header, width check, value. */
    method Read(kind: Kind) returns (f: Field)
      modifies this
      ensures (f, Contents()) == Access(kind, old(Contents()))
    {
      var n, isNull := FieldHeader();
      if isNull {
        return Null;
      }
      if failed {
        return Zero(kind);
      }
      if Width(kind).Some? && n != Width(kind).value {
        failed := true;
        return Zero(kind);
      }
      f := Decode(kind, body[..n]);
      body := body[n..];
    }
  }

  // ---- The header ------------------------------------------------------------------------

  const HEADER_LEN: nat := 19

  datatype Header = BadMagic | Partial(cursor: nat) | Done(rest: bytes)

  function ConsumePGCopyHeader(body: bytes, cursor: nat): Header
    requires cursor <= HEADER_LEN
  {
    if cursor == 0 && |body| >= 11 && body[..11] != MAGIC then BadMagic
    else if |body| < HEADER_LEN - cursor then Partial(cursor + |body|)
    else Done(body[HEADER_LEN - cursor..])
  }

  /** Feeds messages until the header is complete; what is left of the last one, and the others. */
  function SkipHeader(chunks: seq<bytes>, cursor: nat): (r: (Header, seq<bytes>))
    requires cursor < HEADER_LEN
  {
    if chunks == [] then (Partial(cursor), [])
    else
      match ConsumePGCopyHeader(chunks[0], cursor)
      case Partial(n) => SkipHeader(chunks[1..], n)
      case h => (h, chunks[1..])
  }

  function Joined(chunks: seq<bytes>): bytes
  {
    if chunks == [] then [] else chunks[0] + Joined(chunks[1..])
  }

  /** The first message that is not empty. */
  function Leading(chunks: seq<bytes>): bytes
  {
    if chunks == [] then [] else if chunks[0] != [] then chunks[0] else Leading(chunks[1..])
  }

  /**
   Exactly 19 bytes go, however they are split; and a wrong signature is noticed if and only if
   the first non-empty message holds all 11 bytes of it.
  */
  lemma {:induction false} HeaderDropsNineteen(chunks: seq<bytes>, cursor: nat)
    requires cursor < HEADER_LEN
    ensures cursor == 0 && |Leading(chunks)| >= 11 && Leading(chunks)[..11] != MAGIC
            <==> SkipHeader(chunks, cursor).0.BadMagic?
    ensures SkipHeader(chunks, cursor).0.Done? ==> |Joined(chunks)| >= HEADER_LEN - cursor
    ensures SkipHeader(chunks, cursor).0.Partial? ==> |Joined(chunks)| < HEADER_LEN - cursor
    ensures match SkipHeader(chunks, cursor)
            case (BadMagic, _) => true
            case (Done(body), rest) => body + Joined(rest) == Joined(chunks)[HEADER_LEN - cursor..]
            case (Partial(n), rest) => n == cursor + |Joined(chunks)| && rest == []
  {
    if chunks != [] {
      var h := ConsumePGCopyHeader(chunks[0], cursor);
      if h.Partial? {
        HeaderDropsNineteen(chunks[1..], h.cursor);
      }
    }
  }

  // ---- Tuples --------------------------------------------------------------------------------

  datatype Status =
    | Completed | ServerFailed | WrongMagic | Truncated | WrongCount | BadField | Stopped | HandlerFailed
    | Unexpected | WireError

  /** On which call the handler asks to end (io.EOF) or returns another error, if it ever does. */
  datatype Stop = Never | EndsAt(n: nat) | FailsAt(n: nat)

  function StopStatus(stop: Stop, call: nat): Option<Status>
  {
    match stop
    case EndsAt(n) => if n == call then Some(Stopped) else None
    case FailsAt(n) => if n == call then Some(HandlerFailed) else None
    case Never => None
  }

  /** The handler reads every column with the accessor of its type. */
  function AccessAll(kinds: seq<Kind>, c: Cursor): (r: (Tuple, Cursor))
    ensures |r.0| == |kinds| && |r.1.body| <= |c.body|
  {
    if kinds == [] then ([], c)
    else
      var n := |kinds| - 1;
      var (fields, c1) := AccessAll(kinds[..n], c);
      var (f, c2) := Access(kinds[n], c1);
      (fields + [f], c2)
  }

  /** One message's worth of tuples; None means go on with the next message. */
  function ScanBody(body: bytes, kinds: seq<Kind>, rows: seq<Tuple>, stop: Stop): (seq<Tuple>, Option<Status>)
    decreases |body|
  {
    if body == [] then (rows, None)
    else if |body| < 2 then (rows, Some(Truncated))
    else
      var n := ReadI16(body[..2]);
      if n == -1 then ScanBody(body[2..], kinds, rows, stop)
      else if n != |kinds| then (rows, Some(WrongCount))
      else
        var (fields, c) := AccessAll(kinds, Cursor(body[2..], false));
        if StopStatus(stop, |rows|).Some? then (rows, StopStatus(stop, |rows|))
        else if c.failed then (rows, Some(BadField))
        else ScanBody(c.body, kinds, rows + [fields], stop)
  }

  datatype Msg = CopyData(body: bytes) | CopyDone | CommandComplete | ErrorResponse | Async | ReadyForQuery | Other

  /** The position right behind the first ReadyForQuery, or the end of the input. */
  function BehindReady(msgs: seq<Msg>): (k: nat)
    ensures k <= |msgs|
    decreases |msgs|
  {
    if msgs == [] then 0 else if msgs[0].ReadyForQuery? then 1 else 1 + BehindReady(msgs[1..])
  }

  predicate NoReady(msgs: seq<Msg>) { forall i :: 0 <= i < |msgs| ==> !msgs[i].ReadyForQuery? }

  function ScanMsgs(msgs: seq<Msg>, kinds: seq<Kind>, cursor: nat, rows: seq<Tuple>, stop: Stop): (seq<Tuple>, Status)
    requires cursor <= HEADER_LEN
    decreases |msgs|, 0
  {
    if msgs == [] then (rows, WireError)
    else
      match msgs[0]
      case CopyData(body) =>
        if cursor < HEADER_LEN then
          match ConsumePGCopyHeader(body, cursor)
          case BadMagic => (rows, WrongMagic)
          case Partial(n) => ScanMsgs(msgs[1..], kinds, n, rows, stop)
          case Done(rest) => ScanTuples(rest, msgs[1..], kinds, rows, stop)
        else ScanTuples(body, msgs[1..], kinds, rows, stop)
      case CommandComplete => (rows, if NoReady(msgs[1..]) then WireError else Completed)
      case ErrorResponse => (rows, ServerFailed)
      case ReadyForQuery => (rows, Unexpected)
      case Other => (rows, Unexpected)
      case _ => ScanMsgs(msgs[1..], kinds, cursor, rows, stop)
  }

  function ScanTuples(body: bytes, msgs: seq<Msg>, kinds: seq<Kind>, rows: seq<Tuple>, stop: Stop): (seq<Tuple>, Status)
    decreases |msgs|, 1
  {
    var (rows', end) := ScanBody(body, kinds, rows, stop);
    if end.Some? then (rows', end.value) else ScanMsgs(msgs, kinds, HEADER_LEN, rows', stop)
  }

  method Handle(cr: CopyReader, kinds: seq<Kind>) returns (fields: Tuple)
    modifies cr
    ensures (fields, cr.Contents()) == AccessAll(kinds, old(cr.Contents()))
  {
    hide Access;
    fields := [];
    for i := 0 to |kinds|
      invariant (fields, cr.Contents()) == AccessAll(kinds[..i], old(cr.Contents()))
    {
      assert kinds[..i + 1][..i] == kinds[..i];
      var f := cr.Read(kinds[i]);
      fields := fields + [f];
    }
    assert kinds[..|kinds|] == kinds;
  }

  /** drainUntilReady and waitForReady: reads up to and including ReadyForQuery. */
  method DrainUntilReady(msgs: seq<Msg>, start: nat) returns (read: nat)
    requires start <= |msgs| && NoReady(msgs[..start])
    ensures read == BehindReady(msgs)
    ensures start <= read && (NoReady(msgs[start..]) <==> NoReady(msgs))
  {
    read := start;
    while read < |msgs|
      invariant start <= read <= |msgs| && NoReady(msgs[..read])
    {
      read := read + 1;
      if msgs[read - 1].ReadyForQuery? {
        FirstReady(msgs, read - 1);
        assert msgs[start..][read - 1 - start].ReadyForQuery?;
        return;
      }
    }
    assert msgs[..|msgs|] == msgs;
    NeverReady(msgs);
  }

  lemma {:induction false} FirstReady(msgs: seq<Msg>, i: nat)
    requires i < |msgs| && msgs[i].ReadyForQuery? && NoReady(msgs[..i])
    ensures BehindReady(msgs) == i + 1
    decreases |msgs|
  {
    if i > 0 {
      assert msgs[..i][0] == msgs[0];
      assert msgs[1..][..i - 1] == msgs[..i][1..];
      FirstReady(msgs[1..], i - 1);
    }
  }

  lemma {:induction false} NeverReady(msgs: seq<Msg>)
    requires NoReady(msgs)
    ensures BehindReady(msgs) == |msgs|
    decreases |msgs|
  {
    if msgs != [] {
      NeverReady(msgs[1..]);
    }
  }

  /** Failures after which the rest of the server's answer is still on the connection. */
  predicate LeavesRest(status: Status) { status.Truncated? || status.WrongCount? || status.Unexpected? }

  /**
   The receive loop. `read` counts the messages taken off the connection: it is left right behind
   the server's ReadyForQuery, or at its end, except after a malformed tuple or an unexpected
   message.
  */
  method CopyToBinary(msgs: seq<Msg>, kinds: seq<Kind>, stop: Stop) returns (rows: seq<Tuple>, status: Status, read: nat)
    ensures (rows, status) == ScanMsgs(msgs, kinds, 0, [], stop)
    ensures !LeavesRest(status) ==> read == BehindReady(msgs)
    ensures LeavesRest(status) ==> 0 < read <= |msgs| && NoReady(msgs[..read - 1])
    ensures status.Truncated? || status.WrongCount? ==> msgs[read - 1].CopyData?
  {
    hide AccessAll, ConsumePGCopyHeader, BehindReady;
    rows := [];
    var cursor: nat := 0;
    var headerSeen := false;
    var cr := new CopyReader(|kinds|);
    var i := 0;
    while i < |msgs|
      invariant 0 <= i <= |msgs| && NoReady(msgs[..i])
      invariant cursor <= HEADER_LEN && (headerSeen <==> cursor == HEADER_LEN)
      invariant ScanMsgs(msgs, kinds, 0, [], stop) == ScanMsgs(msgs[i..], kinds, cursor, rows, stop)
    {
      ghost var later := msgs[i..][1..];
      assert later == msgs[i + 1..];
      var msg := msgs[i];
      i := i + 1;
      match msg {
        case CopyData(data) =>
          var body := data;
          if !headerSeen {
            var h := ConsumePGCopyHeader(body, cursor);
            if h.BadMagic? {
              read := DrainUntilReady(msgs, i);
              return rows, WrongMagic, read;
            }
            if h.Partial? {
              PartialMore(body, cursor);
              cursor := h.cursor;
              continue;
            }
            body := h.rest;
            cursor, headerSeen := HEADER_LEN, true;
          }
          var end;
          rows, end := ReadTuples(cr, body, kinds, rows, stop);
          if end.Some? {
            read := i;
            if !end.value.Truncated? && !end.value.WrongCount? {
              read := DrainUntilReady(msgs, i);
            }
            return rows, end.value, read;
          }
        case CommandComplete =>
          read := DrainUntilReady(msgs, i);
          if NoReady(msgs[i..]) {
            return rows, WireError, read;
          }
          return rows, Completed, read;
        case ErrorResponse =>
          read := DrainUntilReady(msgs, i);
          return rows, ServerFailed, read;
        case ReadyForQuery =>
          return rows, Unexpected, i;
        case Other =>
          return rows, Unexpected, i;
        case _ =>
      }
    }
    assert msgs[..i] == msgs;
    NeverReady(msgs);
    return rows, WireError, i;
  }

  /** The tuples of one message; the handler keeps the rows it gets. */
  method ReadTuples(cr: CopyReader, start: bytes, kinds: seq<Kind>, before: seq<Tuple>, stop: Stop)
    returns (rows: seq<Tuple>, end: Option<Status>)
    modifies cr
    ensures (rows, end) == ScanBody(start, kinds, before, stop)
    ensures end.Some? ==> end.value in {Truncated, WrongCount, BadField, Stopped, HandlerFailed}
  {
    hide AccessAll;
    rows, end := before, None;
    var body := start;
    while |body| > 0
      invariant ScanBody(start, kinds, before, stop) == ScanBody(body, kinds, rows, stop)
      decreases |body|
    {
      if |body| < 2 {
        return rows, Some(Truncated);
      }
      var n := ReadI16(body[..2]);
      if n == -1 {
        body := body[2..];
        continue;
      }
      if n != |kinds| {
        return rows, Some(WrongCount);
      }
      body := body[2..];
      cr.Reset(body);
      var fields := Handle(cr, kinds);
      if StopStatus(stop, |rows|).Some? {
        return rows, StopStatus(stop, |rows|);
      }
      if cr.failed {
        return rows, Some(BadField);
      }
      rows := rows + [fields];
      body := cr.body;
    }
  }

  lemma PartialMore(body: bytes, cursor: nat)
    requires cursor < HEADER_LEN && ConsumePGCopyHeader(body, cursor).Partial?
    ensures ConsumePGCopyHeader(body, cursor).cursor < HEADER_LEN
  {
  }

  // ---- What the writer sends, the reader gets -------------------------------------------------

  /** A value the column type can carry. */
  predicate Typed(f: Field, kind: Kind)
  {
    match (f, kind)
    case (Null, _) => true
    case (Int2(v), KInt2) => IsInt16(v)
    case (Int4(v), KInt4) => IsInt32(v)
    case (Int8(v), KInt8) => IsInt64(v)
    case (Bool(_), KBool) => true
    case (Text(s), KText) => |s| < TWO_31
    case (Uuid(u), KUuid) => |u| == 16
    case _ => false
  }

  predicate TypedTuple(t: Tuple, kinds: seq<Kind>)
  {
    |t| == |kinds| && forall i :: 0 <= i < |t| ==> Typed(t[i], kinds[i])
  }

  predicate TypedRows(rows: seq<Tuple>, kinds: seq<Kind>)
  {
    forall i :: 0 <= i < |rows| ==> TypedTuple(rows[i], kinds)
  }

  function ValueBytes(f: Field): bytes
  {
    match f
    case Null => []
    case Int2(v) => I16(v)
    case Int4(v) => I32(v)
    case Int8(v) => I64(v)
    case Bool(b) => [if b then 1 else 0]
    case Text(s) => s
    case Uuid(u) => u
  }

  lemma ValueDecodes(f: Field, kind: Kind)
    requires Typed(f, kind) && !f.Null?
    ensures Width(kind).Some? ==> |ValueBytes(f)| == Width(kind).value
    ensures Decode(kind, ValueBytes(f)) == f
  {
    match f
    case Int2(v) => ReadI16RoundTrip(v);
    case Int4(v) => ReadI32RoundTrip(v);
    case Int8(v) => ReadI64RoundTrip(v);
    case _ =>
  }

  lemma FieldIs(f: Field, kind: Kind)
    requires Typed(f, kind)
    ensures FieldBytes(f) == I32(if f.Null? then -1 else |ValueBytes(f)|) + ValueBytes(f)
    ensures |ValueBytes(f)| < TWO_31
  {
    assert I32(-1) + [] == I32(-1);
  }

  lemma AccessOf(f: Field, kind: Kind, rest: bytes)
    requires Typed(f, kind)
    ensures Access(kind, Cursor(FieldBytes(f) + rest, false)) == (f, Cursor(rest, false))
  {
    hide FieldBytes, Decode, ValueBytes, Typed, I32, ReadI32;
    FieldIs(f, kind);
    var v := ValueBytes(f);
    var n := if f.Null? then -1 else |v|;
    ReadI32RoundTrip(n);
    var s := FieldBytes(f) + rest;
    assert s[..4] == I32(n) && s[4..] == v + rest;
    if f.Null? {
      NullValue(f);
      assert v + rest == rest;
    } else {
      ValueDecodes(f, kind);
      assert (v + rest)[..n] == v && (v + rest)[n..] == rest;
    }
  }

  lemma NullValue(f: Field)
    requires f.Null?
    ensures ValueBytes(f) == []
  {
  }

  lemma AccessStep(fields: Tuple, kinds: seq<Kind>, c: Cursor, c1: Cursor, f: Field, c2: Cursor)
    requires kinds != [] && AccessAll(kinds[..|kinds| - 1], c) == (fields, c1)
    requires Access(kinds[|kinds| - 1], c1) == (f, c2)
    ensures AccessAll(kinds, c) == (fields + [f], c2)
  {
    hide Access;
  }

  lemma LastField(front: Tuple, f: Field, rest: bytes)
    ensures FieldsBytes(front + [f]) + rest == FieldsBytes(front) + (FieldBytes(f) + rest)
  {
    hide FieldBytes;
    assert (front + [f])[..|front|] == front;
  }

  lemma FrontTyped(t: Tuple, kinds: seq<Kind>)
    requires TypedTuple(t, kinds) && t != []
    ensures TypedTuple(t[..|t| - 1], kinds[..|t| - 1]) && Typed(t[|t| - 1], kinds[|t| - 1])
  {
    hide Typed;
  }

  lemma AccessLast(front: Tuple, f: Field, kinds: seq<Kind>, kind: Kind, rest: bytes)
    requires |front| == |kinds| && Typed(f, kind)
    requires AccessAll(kinds, Cursor(FieldsBytes(front) + (FieldBytes(f) + rest), false))
          == (front, Cursor(FieldBytes(f) + rest, false))
    ensures AccessAll(kinds + [kind], Cursor(FieldsBytes(front + [f]) + rest, false)) == (front + [f], Cursor(rest, false))
  {
    hide FieldBytes, FieldsBytes, Access, AccessAll, Typed;
    AccessOf(f, kind, rest);
    LastField(front, f, rest);
    assert (kinds + [kind])[..|kinds|] == kinds && (kinds + [kind])[|kinds|] == kind;
    AccessStep(front, kinds + [kind], Cursor(FieldsBytes(front) + (FieldBytes(f) + rest), false),
               Cursor(FieldBytes(f) + rest, false), f, Cursor(rest, false));
  }

  lemma AccessNone(t: Tuple, kinds: seq<Kind>, rest: bytes)
    requires t == [] && kinds == []
    ensures AccessAll(kinds, Cursor(FieldsBytes(t) + rest, false)) == (t, Cursor(rest, false))
  {
    assert FieldsBytes(t) + rest == rest;
  }

  ghost predicate ReadsBack(t: Tuple, kinds: seq<Kind>, rest: bytes)
  {
    AccessAll(kinds, Cursor(FieldsBytes(t) + rest, false)) == (t, Cursor(rest, false))
  }

  lemma LastTwo(t: Tuple, kinds: seq<Kind>, rest: bytes)
    requires t != [] && |t| == |kinds| && Typed(t[|t| - 1], kinds[|t| - 1])
    requires ReadsBack(t[..|t| - 1], kinds[..|t| - 1], FieldBytes(t[|t| - 1]) + rest)
    ensures ReadsBack(t, kinds, rest)
  {
    hide FieldBytes, FieldsBytes, AccessAll, Typed;
    var n := |t| - 1;
    AccessLast(t[..n], t[n], kinds[..n], kinds[n], rest);
    assert t == t[..n] + [t[n]] && kinds == kinds[..n] + [kinds[n]];
  }

  lemma {:induction false} AccessAllOf(t: Tuple, kinds: seq<Kind>, rest: bytes)
    requires TypedTuple(t, kinds)
    ensures ReadsBack(t, kinds, rest)
    decreases |t|
  {
    SameWidth(t, kinds);
    if t == [] {
      AccessNone(t, kinds, rest);
    } else {
      hide TypedTuple, ReadsBack;
      FrontTyped(t, kinds);
      AccessAllOf(t[..|t| - 1], kinds[..|t| - 1], FieldBytes(t[|t| - 1]) + rest);
      LastTwo(t, kinds, rest);
    }
  }

  lemma SameWidth(t: Tuple, kinds: seq<Kind>)
    requires TypedTuple(t, kinds)
    ensures |t| == |kinds|
  {
  }

  /** What a message may hold after the header: tuples and, at any place, the trailer. */
  datatype Item = Row(t: Tuple) | Trailer

  function ItemBytes(item: Item): bytes { if item.Row? then TupleBytes(item.t) else TRAILER }

  function ItemsBytes(items: seq<Item>): bytes
  {
    if items == [] then [] else ItemBytes(items[0]) + ItemsBytes(items[1..])
  }

  function TuplesOf(items: seq<Item>): seq<Tuple>
  {
    if items == [] then [] else (if items[0].Row? then [items[0].t] else []) + TuplesOf(items[1..])
  }

  predicate TypedItems(items: seq<Item>, kinds: seq<Kind>)
  {
    forall i :: 0 <= i < |items| && items[i].Row? ==> TypedTuple(items[i].t, kinds)
  }

  /** A field count of 1 to 32767 never looks like the trailer's -1. */
  lemma ScanTrailer(rest: bytes, kinds: seq<Kind>, rows: seq<Tuple>, stop: Stop)
    ensures ScanBody(TRAILER + rest, kinds, rows, stop) == ScanBody(rest, kinds, rows, stop)
  {
    var b := TRAILER + rest;
    assert b[..2] == TRAILER && b[2..] == rest;
    assert I16(-1) == TRAILER by {
      assert ToBE(0xFFFF, 2) == ToBE(0xFF, 1) + [0xFF];
      assert ToBE(0xFF, 1) == ToBE(0, 0) + [0xFF];
    }
    ReadI16RoundTrip(-1);
  }

  lemma ScanTuple(t: Tuple, rest: bytes, kinds: seq<Kind>, rows: seq<Tuple>, stop: Stop)
    requires TypedTuple(t, kinds) && 0 < |kinds| <= 0x7FFF && stop == Never
    ensures ScanBody(TupleBytes(t) + rest, kinds, rows, stop) == ScanBody(rest, kinds, rows + [t], stop)
  {
    hide AccessAll, FieldsBytes, TypedTuple, ReadI16, I16;
    SameWidth(t, kinds);
    var b := TupleBytes(t) + rest;
    assert b[..2] == I16(|t|) && b[2..] == FieldsBytes(t) + rest;
    ReadI16RoundTrip(|t|);
    AccessAllOf(t, kinds, rest);
  }

  lemma ItemsTail(items: seq<Item>, kinds: seq<Kind>)
    requires TypedItems(items, kinds) && items != []
    ensures TypedItems(items[1..], kinds) && (items[0].Row? ==> TypedTuple(items[0].t, kinds))
  {
    hide TypedTuple;
  }

  /** The first item read off. */
  lemma ScanItem(items: seq<Item>, kinds: seq<Kind>, rows: seq<Tuple>, stop: Stop)
    requires items != [] && (items[0].Row? ==> TypedTuple(items[0].t, kinds)) && 0 < |kinds| <= 0x7FFF && stop == Never
    ensures ScanBody(ItemsBytes(items), kinds, rows, stop)
         == ScanBody(ItemsBytes(items[1..]), kinds, Add(rows, items[0]), stop)
  {
    hide ScanBody, TupleBytes, TypedTuple;
    if items[0].Row? {
      ScanTuple(items[0].t, ItemsBytes(items[1..]), kinds, rows, stop);
    } else {
      ScanTrailer(ItemsBytes(items[1..]), kinds, rows, stop);
    }
  }

  function Add(rows: seq<Tuple>, item: Item): seq<Tuple> { if item.Row? then rows + [item.t] else rows }

  lemma AddThenRest(rows: seq<Tuple>, items: seq<Item>)
    requires items != []
    ensures Add(rows, items[0]) + TuplesOf(items[1..]) == rows + TuplesOf(items)
  {
    var t := if items[0].Row? then [items[0].t] else [];
    var later := TuplesOf(items[1..]);
    assert TuplesOf(items) == t + later;
    assert (rows + t) + later == rows + (t + later);
    assert rows + [] == rows;
  }

  lemma NoItems(kinds: seq<Kind>, rows: seq<Tuple>, stop: Stop)
    ensures ScanBody(ItemsBytes([]), kinds, rows, stop) == (rows + TuplesOf([]), None)
  {
    assert rows + TuplesOf([]) == rows;
  }

  lemma {:induction false} ScanItems(items: seq<Item>, kinds: seq<Kind>, rows: seq<Tuple>, stop: Stop)
    requires TypedItems(items, kinds) && 0 < |kinds| <= 0x7FFF && stop == Never
    ensures ScanBody(ItemsBytes(items), kinds, rows, stop) == (rows + TuplesOf(items), None)
    decreases |items|
  {
    hide ScanBody, TypedItems, ItemsBytes, TuplesOf, Add;
    if items == [] {
      NoItems(kinds, rows, stop);
    } else {
      ItemsTail(items, kinds);
      ScanItem(items, kinds, rows, stop);
      ScanItems(items[1..], kinds, Add(rows, items[0]), stop);
      AddThenRest(rows, items);
    }
  }

  /** After the header: messages with items, and notices in between. */
  datatype Part = Chunk(items: seq<Item>) | Notice

  const END: seq<Msg> := [CopyDone, CommandComplete, ReadyForQuery]

  function PartMsgs(parts: seq<Part>): seq<Msg>
  {
    if parts == [] then []
    else [PartMsg(parts[0])] + PartMsgs(parts[1..])
  }

  function PartTuples(parts: seq<Part>): seq<Tuple>
  {
    if parts == [] then []
    else (if parts[0].Chunk? then TuplesOf(parts[0].items) else []) + PartTuples(parts[1..])
  }

  predicate TypedParts(parts: seq<Part>, kinds: seq<Kind>)
  {
    forall i :: 0 <= i < |parts| && parts[i].Chunk? ==> TypedItems(parts[i].items, kinds)
  }

  lemma ScanEnd(kinds: seq<Kind>, rows: seq<Tuple>, stop: Stop)
    ensures ScanMsgs(END, kinds, HEADER_LEN, rows, stop) == (rows, Completed)
  {
    var tail: seq<Msg> := [CommandComplete, ReadyForQuery];
    assert END[1..] == tail && tail[1..] == [ReadyForQuery] && tail[1..][0] == ReadyForQuery;
    assert ScanMsgs(tail, kinds, HEADER_LEN, rows, stop) == (rows, Completed);
  }

  lemma ScanHead(msg: Msg, more: seq<Msg>, kinds: seq<Kind>, rows: seq<Tuple>, stop: Stop)
    ensures msg.CopyData? ==>
              ScanMsgs([msg] + more, kinds, HEADER_LEN, rows, stop) == ScanTuples(msg.body, more, kinds, rows, stop)
    ensures msg.Async? ==>
              ScanMsgs([msg] + more, kinds, HEADER_LEN, rows, stop) == ScanMsgs(more, kinds, HEADER_LEN, rows, stop)
  {
    hide ScanTuples;
    assert ([msg] + more)[1..] == more;
  }

  function PartMsg(part: Part): Msg { if part.Chunk? then CopyData(ItemsBytes(part.items)) else Async }

  function AddPart(rows: seq<Tuple>, part: Part): seq<Tuple>
  {
    if part.Chunk? then rows + TuplesOf(part.items) else rows
  }

  lemma ScanPart(part: Part, more: seq<Msg>, kinds: seq<Kind>, rows: seq<Tuple>, stop: Stop)
    requires (part.Chunk? ==> TypedItems(part.items, kinds)) && 0 < |kinds| <= 0x7FFF && stop == Never
    ensures ScanMsgs([PartMsg(part)] + more, kinds, HEADER_LEN, rows, stop)
         == ScanMsgs(more, kinds, HEADER_LEN, AddPart(rows, part), stop)
  {
    hide ScanMsgs, ScanBody, TypedItems, ItemsBytes, TuplesOf;
    if part.Chunk? {
      ScanHead(CopyData(ItemsBytes(part.items)), more, kinds, rows, stop);
      ScanItems(part.items, kinds, rows, stop);
    } else {
      ScanHead(Async, more, kinds, rows, stop);
    }
  }

  lemma PartsFront(parts: seq<Part>)
    requires parts != []
    ensures PartMsgs(parts) + END == [PartMsg(parts[0])] + (PartMsgs(parts[1..]) + END)
  {
    hide PartMsg;
    var msgs := PartMsgs(parts[1..]);
    assert PartMsgs(parts) == [PartMsg(parts[0])] + msgs;
    assert ([PartMsg(parts[0])] + msgs) + END == [PartMsg(parts[0])] + (msgs + END);
  }

  lemma Regroup(rows: seq<Tuple>, t: seq<Tuple>, later: seq<Tuple>)
    ensures (rows + t) + later == rows + (t + later)
    ensures rows + later == rows + ([] + later)
  {
    assert [] + later == later;
  }

  lemma AddThenParts(parts: seq<Part>, rows: seq<Tuple>)
    requires parts != []
    ensures AddPart(rows, parts[0]) + PartTuples(parts[1..]) == rows + PartTuples(parts)
  {
    var t := if parts[0].Chunk? then TuplesOf(parts[0].items) else [];
    var later := PartTuples(parts[1..]);
    assert PartTuples(parts) == t + later;
    hide PartTuples, TuplesOf;
    Regroup(rows, t, later);
  }

  lemma NoParts(kinds: seq<Kind>, rows: seq<Tuple>, stop: Stop)
    ensures ScanMsgs(PartMsgs([]) + END, kinds, HEADER_LEN, rows, stop) == (rows + PartTuples([]), Completed)
  {
    hide ScanMsgs;
    assert PartMsgs([]) + END == END && rows + [] == rows;
    ScanEnd(kinds, rows, stop);
  }

  lemma {:induction false} ScanParts(parts: seq<Part>, kinds: seq<Kind>, rows: seq<Tuple>, stop: Stop)
    requires TypedParts(parts, kinds) && 0 < |kinds| <= 0x7FFF && stop == Never
    ensures ScanMsgs(PartMsgs(parts) + END, kinds, HEADER_LEN, rows, stop) == (rows + PartTuples(parts), Completed)
    decreases |parts|
  {
    hide ScanMsgs, TypedItems, PartMsgs, PartMsg, PartTuples, AddPart;
    if parts == [] {
      NoParts(kinds, rows, stop);
    } else {
      ScanPart(parts[0], PartMsgs(parts[1..]) + END, kinds, rows, stop);
      ScanParts(parts[1..], kinds, AddPart(rows, parts[0]), stop);
      PartsFront(parts);
      AddThenParts(parts, rows);
    }
  }

  function DataMsgs(chunks: seq<bytes>): seq<Msg>
  {
    if chunks == [] then [] else [CopyData(chunks[0])] + DataMsgs(chunks[1..])
  }

  lemma HeaderPiece(piece: bytes, cursor: nat, later: bytes)
    requires cursor < HEADER_LEN && piece + later == PGCOPY[cursor..] && later != []
    ensures ConsumePGCopyHeader(piece, cursor) == Partial(cursor + |piece|) && cursor + |piece| < HEADER_LEN
    ensures later == PGCOPY[cursor + |piece|..]
  {
    var whole := piece + later;
    assert |whole| == HEADER_LEN - cursor;
    assert later == whole[|piece|..];
    if cursor == 0 && |piece| >= 11 {
      assert piece[..11] == whole[..11] == MAGIC;
    }
  }

  lemma HeaderLast(last: bytes, body: bytes, cursor: nat)
    requires cursor < HEADER_LEN && last == PGCOPY[cursor..]
    ensures ConsumePGCopyHeader(last + body, cursor) == Done(body)
  {
    if cursor == 0 {
      assert (last + body)[..11] == MAGIC;
    }
    assert (last + body)[HEADER_LEN - cursor..] == body;
  }

  /** A message that is all header moves the cursor. */
  lemma ScanPiece(piece: bytes, later: seq<Msg>, kinds: seq<Kind>, cursor: nat, stop: Stop)
    requires cursor < HEADER_LEN && ConsumePGCopyHeader(piece, cursor) == Partial(cursor + |piece|)
    requires cursor + |piece| <= HEADER_LEN
    ensures ScanMsgs([CopyData(piece)] + later, kinds, cursor, [], stop)
         == ScanMsgs(later, kinds, cursor + |piece|, [], stop)
  {
    hide ConsumePGCopyHeader, ScanTuples;
    assert ([CopyData(piece)] + later)[1..] == later;
  }

  lemma ScanLastPiece(last: bytes, body: bytes, more: seq<Msg>, kinds: seq<Kind>, cursor: nat, stop: Stop)
    requires cursor < HEADER_LEN && last == PGCOPY[cursor..]
    ensures ScanMsgs([CopyData(last + body)] + more, kinds, cursor, [], stop) == ScanTuples(body, more, kinds, [], stop)
  {
    hide ConsumePGCopyHeader, ScanTuples;
    HeaderLast(last, body, cursor);
    assert ([CopyData(last + body)] + more)[1..] == more;
  }

  lemma NoPiece(pieces: seq<bytes>, last: bytes, rest: seq<Msg>)
    requires pieces == []
    ensures Joined(pieces) + last == last && DataMsgs(pieces) + rest == rest
  {
  }

  lemma FirstPiece(pieces: seq<bytes>, last: bytes, rest: seq<Msg>)
    requires pieces != []
    ensures Joined(pieces) + last == pieces[0] + (Joined(pieces[1..]) + last)
    ensures DataMsgs(pieces) + rest == [CopyData(pieces[0])] + (DataMsgs(pieces[1..]) + rest)
  {
  }

  lemma {:induction false} ScanHeader(pieces: seq<bytes>, last: bytes, body: bytes, more: seq<Msg>, kinds: seq<Kind>,
                                      cursor: nat, stop: Stop)
    requires cursor < HEADER_LEN && last != [] && Joined(pieces) + last == PGCOPY[cursor..]
    ensures ScanMsgs(DataMsgs(pieces) + ([CopyData(last + body)] + more), kinds, cursor, [], stop)
         == ScanTuples(body, more, kinds, [], stop)
    decreases |pieces|
  {
    hide ConsumePGCopyHeader, ScanTuples, ScanMsgs, Joined, DataMsgs;
    var rest := [CopyData(last + body)] + more;
    if pieces == [] {
      NoPiece(pieces, last, rest);
      ScanLastPiece(last, body, more, kinds, cursor, stop);
    } else {
      FirstPiece(pieces, last, rest);
      HeaderPiece(pieces[0], cursor, Joined(pieces[1..]) + last);
      ScanHeader(pieces[1..], last, body, more, kinds, cursor + |pieces[0]|, stop);
      ScanPiece(pieces[0], DataMsgs(pieces[1..]) + rest, kinds, cursor, stop);
    }
  }

  /**
   However the server splits the header, packs tuples into messages, places the trailer and
   interleaves notices: the handler gets every row, in order, and the COPY completes.
  */
  lemma EverySplitReads(pieces: seq<bytes>, last: bytes, first: seq<Item>, parts: seq<Part>, kinds: seq<Kind>,
                        stop: Stop)
    requires last != [] && Joined(pieces) + last == PGCOPY
    requires TypedItems(first, kinds) && TypedParts(parts, kinds) && 0 < |kinds| <= 0x7FFF && stop == Never
    ensures ScanMsgs(DataMsgs(pieces) + ([CopyData(last + ItemsBytes(first))] + (PartMsgs(parts) + END)), kinds, 0, [], stop)
         == (TuplesOf(first) + PartTuples(parts), Completed)
  {
    hide ScanMsgs, ScanBody, TypedItems, TypedParts, ItemsBytes;
    assert PGCOPY[0..] == PGCOPY;
    ScanHeader(pieces, last, ItemsBytes(first), PartMsgs(parts) + END, kinds, 0, stop);
    ScanItems(first, kinds, [], stop);
    assert [] + TuplesOf(first) == TuplesOf(first);
    ScanParts(parts, kinds, TuplesOf(first), stop);
  }

  // ---- The writer's own messages ----------------------------------------------------------------

  /** The payload of a CopyData message whose length field is right. */
  function FramePayload(frame: bytes): Option<bytes>
  {
    if |frame| < 5 || frame[0] != MSG_COPY_DATA || ReadU32(frame[1..5]) != |frame| - 1 then None
    else Some(frame[5..])
  }

  lemma FrameReads(payload: bytes)
    requires |payload| + 4 < TWO_32
    ensures FramePayload(Frame(payload)) == Some(payload)
  {
    hide ToBE, ReadU32;
    var f := Frame(payload);
    ReadU32RoundTrip(|payload| + 4);
    assert f[1..5] == ToBE(|payload| + 4, 4) && f[5..] == payload;
  }

  /** Every message is a well-formed CopyData. */
  ghost predicate Framed(sent: seq<bytes>) { forall i :: 0 <= i < |sent| ==> FramePayload(sent[i]).Some? }

  /** What the reader receives when the messages are passed on unchanged. */
  ghost function Relay(sent: seq<bytes>): (msgs: seq<Msg>)
    requires Framed(sent)
    ensures |msgs| == |sent| && forall i :: 0 <= i < |msgs| ==> msgs[i] == CopyData(FramePayload(sent[i]).value)
  {
    seq(|sent|, i requires 0 <= i < |sent| => CopyData(FramePayload(sent[i]).value))
  }

  /** Group `i` as items; the last group is followed by the trailer. */
  function Rows(ts: seq<Tuple>): (items: seq<Item>)
    ensures |items| == |ts| && forall i :: 0 <= i < |items| ==> items[i] == Row(ts[i])
  {
    seq(|ts|, i requires 0 <= i < |ts| => Row(ts[i]))
  }

  function GroupItems(groups: seq<seq<Tuple>>, i: nat): seq<Item>
    requires i < |groups|
  {
    Rows(groups[i]) + (if i == |groups| - 1 then [Trailer] else [])
  }

  lemma {:induction false} ItemsConcat(a: seq<Item>, b: seq<Item>)
    ensures ItemsBytes(a + b) == ItemsBytes(a) + ItemsBytes(b)
    ensures TuplesOf(a + b) == TuplesOf(a) + TuplesOf(b)
    decreases |a|
  {
    hide ItemBytes;
    if a == [] {
      assert a + b == b && ItemsBytes(a) + ItemsBytes(b) == ItemsBytes(b);
      assert TuplesOf(a) + TuplesOf(b) == TuplesOf(b);
    } else {
      ItemsConcat(a[1..], b);
      assert (a + b)[1..] == a[1..] + b && (a + b)[0] == a[0];
    }
  }

  lemma OneItem(item: Item)
    ensures ItemsBytes([item]) == ItemBytes(item) && TuplesOf([item]) == if item.Row? then [item.t] else []
  {
    hide ItemBytes;
    var items := [item];
    assert items[1..] == [];
    assert ItemBytes(item) + ItemsBytes([]) == ItemBytes(item);
  }

  lemma {:induction false} RowsBytes(ts: seq<Tuple>)
    ensures ItemsBytes(Rows(ts)) == TuplesBytes(ts) && TuplesOf(Rows(ts)) == ts
  {
    hide TupleBytes;
    if ts != [] {
      var n := |ts| - 1;
      RowsBytes(ts[..n]);
      OneItem(Row(ts[n]));
      ItemsConcat(Rows(ts[..n]), [Row(ts[n])]);
      assert Rows(ts) == Rows(ts[..n]) + [Row(ts[n])];
      assert ts == ts[..n] + [ts[n]];
    }
  }

  lemma GroupBytes(groups: seq<seq<Tuple>>, i: nat)
    requires i < |groups|
    ensures TuplesOf(GroupItems(groups, i)) == groups[i]
    ensures ItemsBytes(GroupItems(groups, i))
         == TuplesBytes(groups[i]) + (if i == |groups| - 1 then TRAILER else [])
  {
    hide ItemsBytes, TuplesBytes, TuplesOf;
    RowsBytes(groups[i]);
    if i == |groups| - 1 {
      OneItem(Trailer);
      ItemsConcat(Rows(groups[i]), [Trailer]);
      assert groups[i] + [] == groups[i];
    } else {
      assert Rows(groups[i]) + [] == Rows(groups[i]);
      assert TuplesBytes(groups[i]) + [] == TuplesBytes(groups[i]);
    }
  }

  /** The groups from `i` on, one message each. */
  function Chunks(groups: seq<seq<Tuple>>, i: nat): (parts: seq<Part>)
    requires i <= |groups|
    ensures |parts| == |groups| - i
    ensures forall j :: 0 <= j < |parts| ==> parts[j] == Chunk(GroupItems(groups, i + j))
    decreases |groups| - i
  {
    if i == |groups| then [] else [Chunk(GroupItems(groups, i))] + Chunks(groups, i + 1)
  }

  lemma {:induction false} FlatConcat(a: seq<seq<Tuple>>, b: seq<seq<Tuple>>)
    ensures Flat(a + b) == Flat(a) + Flat(b)
    decreases |b|
  {
    if b == [] {
      assert a + b == a;
    } else {
      var n := |b| - 1;
      FlatConcat(a, b[..n]);
      assert (a + b)[..|a + b| - 1] == a + b[..n];
    }
  }

  lemma FlatOne(g: seq<Tuple>)
    ensures Flat([g]) == g
  {
    assert [g][..0] == [];
    assert [] + g == g;
  }

  lemma FirstChunk(groups: seq<seq<Tuple>>, i: nat)
    requires i < |groups|
    ensures PartTuples(Chunks(groups, i)) == TuplesOf(GroupItems(groups, i)) + PartTuples(Chunks(groups, i + 1))
  {
    hide GroupItems, TuplesOf;
    assert Chunks(groups, i)[1..] == Chunks(groups, i + 1);
  }

  lemma {:induction false} ChunkTuples(groups: seq<seq<Tuple>>, i: nat)
    requires i <= |groups|
    ensures PartTuples(Chunks(groups, i)) == Flat(groups[i..])
    decreases |groups| - i
  {
    if i < |groups| {
      hide GroupItems, TuplesOf, Flat;
      ChunkTuples(groups, i + 1);
      GroupBytes(groups, i);
      assert groups[i..] == [groups[i]] + groups[i + 1..];
      FlatConcat([groups[i]], groups[i + 1..]);
      FlatOne(groups[i]);
      FirstChunk(groups, i);
      hide Chunks, PartTuples;
    }
  }

  lemma {:induction false} PartMsgsAt(parts: seq<Part>)
    ensures |PartMsgs(parts)| == |parts|
    ensures forall j :: 0 <= j < |parts| ==> PartMsgs(parts)[j] == PartMsg(parts[j])
    decreases |parts|
  {
    hide PartMsg;
    if parts != [] {
      PartMsgsAt(parts[1..]);
    }
  }

  lemma ChunkMsgs(groups: seq<seq<Tuple>>, i: nat)
    requires i <= |groups|
    ensures |PartMsgs(Chunks(groups, i))| == |groups| - i
    ensures forall j :: 0 <= j < |groups| - i ==>
              PartMsgs(Chunks(groups, i))[j] == CopyData(ItemsBytes(GroupItems(groups, i + j)))
  {
    hide Chunks, PartMsgs, GroupItems, ItemsBytes;
    PartMsgsAt(Chunks(groups, i));
  }

  /** The payload of message `i` of a complete COPY. */
  lemma CompletePayload(sent: seq<bytes>, groups: seq<seq<Tuple>>, i: nat)
    requires Complete(sent, groups) && i < |sent|
    ensures |groups| == |sent| && sent[i] == Frame(Opening(i) + ItemsBytes(GroupItems(groups, i)))
  {
    hide Frame, TuplesBytes, ItemsBytes, GroupItems, Opening;
    GroupBytes(groups, i);
    if i < |sent| - 1 {
      assert sent[..|sent| - 1][i] == sent[i] && groups[..|sent| - 1][i] == groups[i];
      assert TuplesBytes(groups[i]) + [] == TuplesBytes(groups[i]);
    }
  }

  lemma FrameSize(payload: bytes)
    ensures |Frame(payload)| == |payload| + 5
  {
  }

  lemma RelayedMessage(sent: seq<bytes>, groups: seq<seq<Tuple>>, i: nat)
    requires Complete(sent, groups) && i < |sent| && |sent[i]| <= TWO_32
    ensures |groups| == |sent| && FramePayload(sent[i]) == Some(Opening(i) + ItemsBytes(GroupItems(groups, i)))
  {
    hide Frame, ItemsBytes, GroupItems, Opening, FramePayload;
    CompletePayload(sent, groups, i);
    FrameSize(Opening(i) + ItemsBytes(GroupItems(groups, i)));
    FrameReads(Opening(i) + ItemsBytes(GroupItems(groups, i)));
  }

  lemma RelayAt(sent: seq<bytes>, groups: seq<seq<Tuple>>, i: nat)
    requires Complete(sent, groups) && 0 < i < |sent| && |sent[i]| <= TWO_32
    ensures |groups| == |sent| && |PartMsgs(Chunks(groups, 1))| == |groups| - 1
    ensures FramePayload(sent[i]).Some? && CopyData(FramePayload(sent[i]).value) == PartMsgs(Chunks(groups, 1))[i - 1]
  {
    hide Complete, ItemsBytes, GroupItems, FramePayload, Chunks, PartMsgs;
    RelayedMessage(sent, groups, i);
    ChunkMsgs(groups, 1);
    assert PartMsgs(Chunks(groups, 1))[i - 1] == CopyData(ItemsBytes(GroupItems(groups, 1 + (i - 1))));
    assert Opening(i) + ItemsBytes(GroupItems(groups, i)) == ItemsBytes(GroupItems(groups, i));
  }

  lemma HeadAndTail(msgs: seq<Msg>, head: Msg, tail: seq<Msg>)
    requires |msgs| == 1 + |tail| && msgs[0] == head
    requires forall i :: 0 < i < |msgs| ==> msgs[i] == tail[i - 1]
    ensures msgs == [head] + tail
  {
  }

  lemma AllFramed(sent: seq<bytes>, groups: seq<seq<Tuple>>)
    requires Complete(sent, groups) && forall i :: 0 <= i < |sent| ==> |sent[i]| <= TWO_32
    ensures |groups| == |sent| > 0 && Framed(sent)
  {
    assert |sent| > 0;
    hide Complete, ItemsBytes, GroupItems, FramePayload;
    forall i | 0 <= i < |sent| ensures FramePayload(sent[i]).Some? {
      RelayedMessage(sent, groups, i);
    }
    RelayedMessage(sent, groups, 0);
  }

  lemma RelayIs(sent: seq<bytes>, groups: seq<seq<Tuple>>)
    requires Complete(sent, groups) && forall i :: 0 <= i < |sent| ==> |sent[i]| <= TWO_32
    ensures |groups| == |sent| > 0 && Framed(sent)
    ensures Relay(sent) == [CopyData(PGCOPY + ItemsBytes(GroupItems(groups, 0)))] + PartMsgs(Chunks(groups, 1))
  {
    AllFramed(sent, groups);
    hide Complete, ItemsBytes, GroupItems, FramePayload, Chunks, PartMsgs, Framed;
    RelayedMessage(sent, groups, 0);
    ChunkMsgs(groups, 1);
    forall i | 0 < i < |sent| ensures Relay(sent)[i] == PartMsgs(Chunks(groups, 1))[i - 1] {
      RelayAt(sent, groups, i);
    }
    HeadAndTail(Relay(sent), CopyData(PGCOPY + ItemsBytes(GroupItems(groups, 0))), PartMsgs(Chunks(groups, 1)));
  }

  lemma {:induction false} TypedFlat(groups: seq<seq<Tuple>>, kinds: seq<Kind>)
    requires TypedRows(Flat(groups), kinds)
    ensures forall i :: 0 <= i < |groups| ==> TypedRows(groups[i], kinds)
  {
    if groups != [] {
      hide TypedTuple;
      var n := |groups| - 1;
      var front := Flat(groups[..n]);
      assert Flat(groups) == front + groups[n];
      assert forall j :: 0 <= j < |front| ==> Flat(groups)[j] == front[j];
      assert forall j :: 0 <= j < |groups[n]| ==> Flat(groups)[|front| + j] == groups[n][j];
      TypedFlat(groups[..n], kinds);
      assert forall i :: 0 <= i < n ==> groups[..n][i] == groups[i];
    }
  }

  lemma TypedGroup(groups: seq<seq<Tuple>>, kinds: seq<Kind>, i: nat)
    requires i < |groups| && TypedRows(groups[i], kinds)
    ensures TypedItems(GroupItems(groups, i), kinds)
  {
    hide TypedTuple;
  }

  lemma AllTuples(groups: seq<seq<Tuple>>)
    requires groups != []
    ensures TuplesOf(GroupItems(groups, 0)) + PartTuples(Chunks(groups, 1)) == Flat(groups)
  {
    hide TuplesOf, PartTuples, GroupItems, Chunks;
    GroupBytes(groups, 0);
    ChunkTuples(groups, 1);
    assert groups == [groups[0]] + groups[1..];
    FlatConcat([groups[0]], groups[1..]);
    FlatStep([], groups[0]);
    assert [] + [groups[0]] == [groups[0]];
    assert Flat([]) + groups[0] == groups[0];
  }

  lemma AllTyped(groups: seq<seq<Tuple>>, kinds: seq<Kind>)
    requires groups != [] && TypedRows(Flat(groups), kinds)
    ensures TypedItems(GroupItems(groups, 0), kinds) && TypedParts(Chunks(groups, 1), kinds)
  {
    hide TypedItems, GroupItems, TypedRows, Flat;
    TypedFlat(groups, kinds);
    forall i: nat | i < |groups|
      ensures TypedItems(GroupItems(groups, i), kinds)
    {
      TypedGroup(groups, kinds, i);
    }
  }

  /**
   The COPY round trip: the messages of a successful copyFromBinary, whatever its flush
   threshold, give copyToBinary the same rows in the same order.
  */
  lemma CopyRoundTrip(sent: seq<bytes>, groups: seq<seq<Tuple>>, kinds: seq<Kind>)
    requires Complete(sent, groups) && TypedRows(Flat(groups), kinds) && 0 < |kinds| <= 0x7FFF
    requires forall i :: 0 <= i < |sent| ==> |sent[i]| <= TWO_32
    ensures Framed(sent)
    ensures ScanMsgs(Relay(sent) + END, kinds, 0, [], Never) == (Flat(groups), Completed)
  {
    hide ScanMsgs, Relay, Framed, ItemsBytes, GroupItems, PartMsgs, Chunks, TypedItems, Flat, Complete,
         TuplesOf, PartTuples, TypedRows, TypedParts;
    RelayIs(sent, groups);
    AllTyped(groups, kinds);
    AllTuples(groups);
    EverySplitReads([], PGCOPY, GroupItems(groups, 0), Chunks(groups, 1), kinds, Never);
    var head := [CopyData(PGCOPY + ItemsBytes(GroupItems(groups, 0)))];
    assert Relay(sent) + END == DataMsgs([]) + (head + (PartMsgs(Chunks(groups, 1)) + END));
  }
}
