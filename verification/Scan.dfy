/**
 Scanning rows into structs (pgz/scan.go): setters that write fields in place, an inline fast
 path beside them, and slots that are reused from batch to batch.
*/
module Scan {
  import opened Bytes
  import opened Rows

  // ---- Setters -----------------------------------------------------------------------

  datatype Oid = OBool | OInt2 | OInt4 | OInt8 | OText | OBytea | OTimestamp

  /** Go's integer kinds. */
  datatype IntKind = Int8 | Int16 | Int32 | Int64 | Uint8 | Uint16 | Uint32 | Uint64

  /** Field types: `NullInt` is the sql.NullIntXX family, `PtrInt` a pointer to an integer. */
  datatype Target =
    | TBool | TInt(kind: IntKind) | TString | TBytes | TTime | NullInt(kind: IntKind) | PtrInt(kind: IntKind)

  /** What a field holds. */
  datatype Value =
    | VBool(b: bool) | VInt(v: int) | VString(s: bytes) | VBytes(bs: Option<bytes>) | VTime(sec: int, nsec: int)
    | VNull(inner: int, valid: bool) | VPtr(p: Option<int>)

  function Width(oid: Oid): nat
  {
    match oid
    case OInt2 => 2
    case OInt4 => 4
    case OInt8 => 8
    case _ => 0
  }

  function Bits(kind: IntKind): nat
  {
    match kind
    case Int8 => 0x100
    case Uint8 => 0x100
    case Int16 => 0x1_0000
    case Uint16 => 0x1_0000
    case Int32 => TWO_32
    case Uint32 => TWO_32
    case Int64 => TWO_64
    case Uint64 => TWO_64
  }

  predicate IsSigned(kind: IntKind) { kind.Int8? || kind.Int16? || kind.Int32? || kind.Int64? }

  /** Go's integer conversion: the value modulo the width. */
  function Convert(kind: IntKind, v: int): int
  {
    var u := v % Bits(kind);
    if IsSigned(kind) then Signed(u, Bits(kind)) else u
  }

  function ReadInt(b: bytes): int
    requires |b| == 2 || |b| == 4 || |b| == 8
  {
    if |b| == 2 then ReadI16(b) else if |b| == 4 then ReadI32(b) else ReadI64(b)
  }

  const EPOCH: int := 946684800

  /** pgUsecToTime: seconds and nanoseconds since 1970. */
  function TimeOf(usec: int): (int, int)
  {
    var nsec := TruncMod(usec, 1_000_000) * 1000;
    var sec := EPOCH + TruncDiv(usec, 1_000_000);
    if nsec < 0 then (sec - 1, nsec + 1_000_000_000) else (sec, nsec)
  }

  predicate Supported(oid: Oid, target: Target)
  {
    match target
    case TBool => oid.OBool?
    case TString => oid.OText?
    case TBytes => oid.OText? || oid.OBytea?
    case TTime => oid.OTimestamp?
    case _ => oid.OInt2? || oid.OInt4? || oid.OInt8?
  }

  /** The setter for a column: the new field, or None for an error. NULL may leave the field alone. */
  function Set(oid: Oid, target: Target, old': Value, raw: Raw): Option<Value>
    requires Supported(oid, target)
  {
    match (target, raw)
    case (TBool, None) => Some(VBool(false))
    case (TBool, Some(b)) => Some(VBool(|b| == 1 && b[0] != 0))
    case (TString, None) => Some(VString([]))
    case (TString, Some(b)) => Some(VString(b))
    case (TBytes, _) => Some(VBytes(raw))
    case (TTime, None) => Some(old')
    case (TTime, Some(b)) =>
      if |b| != 8 then Some(old')
      else
        var usec := ReadI64(b);
        if usec == TWO_63 - 1 || usec == -TWO_63 then Some(old')
        else Some(VTime(TimeOf(usec).0, TimeOf(usec).1))
    case (TInt(kind), None) => Some(old')
    case (TInt(kind), Some(b)) =>
      if |b| != Width(oid) then None else Some(VInt(Convert(kind, ReadInt(b))))
    case (NullInt(kind), None) => Some(VNull(if old'.VNull? then old'.inner else 0, false))
    case (NullInt(kind), Some(b)) =>
      if |b| != Width(oid) then None else Some(VNull(Convert(kind, ReadInt(b)), true))
    case (PtrInt(kind), None) => Some(VPtr(None))
    case (PtrInt(kind), Some(b)) =>
      if |b| != Width(oid) then None else Some(VPtr(Some(Convert(kind, ReadInt(b)))))
  }

  /** The inline opcodes of fillStructRow. */
  datatype Op = OpFallback | OpBool | OpInt(width: nat, kind: IntKind) | OpString | OpBytes

  function InlineOpFor(oid: Oid, target: Target): Op
  {
    match (oid, target)
    case (OBool, TBool) => OpBool
    case (OInt2, TInt(Int16)) => OpInt(2, Int16)
    case (OInt2, TInt(Int32)) => OpInt(2, Int32)
    case (OInt2, TInt(Int64)) => OpInt(2, Int64)
    case (OInt4, TInt(Int32)) => OpInt(4, Int32)
    case (OInt4, TInt(Int64)) => OpInt(4, Int64)
    case (OInt8, TInt(Int64)) => OpInt(8, Int64)
    case (OText, TString) => OpString
    case (OText, TBytes) => OpBytes
    case (OBytea, TBytes) => OpBytes
    case _ => OpFallback
  }

  /** The inline store, without any conversion; None means use the setter. */
  function Inline(op: Op, b: bytes): Option<Value>
  {
    match op
    case OpBool => if |b| == 1 then Some(VBool(b[0] != 0)) else None
    case OpInt(width, _) =>
      if |b| == width && (width == 2 || width == 4 || width == 8) then Some(VInt(ReadInt(b))) else None
    case OpString => Some(VString(b))
    case OpBytes => Some(VBytes(Some(b)))
    case OpFallback => None
  }

  predicate FitsKind(kind: IntKind, v: int)
  {
    if IsSigned(kind) then -(Bits(kind) as int) <= 2 * v < Bits(kind) else 0 <= v < Bits(kind)
  }

  /** An integer survives the setter exactly when it fits the field; otherwise it is truncated silently. */
  lemma ConvertExactIff(kind: IntKind, v: int)
    ensures Convert(kind, v) == v <==> FitsKind(kind, v)
  {
    var n := Bits(kind);
    var u := v % n;
    if FitsKind(kind, v) {
      if v >= 0 {
        DivIs(v, n, 0, v);
      } else {
        DivIs(v, n, -1, v + n);
      }
    }
  }

  /** Wherever the inline path is taken it stores what the setter would have stored. */
  lemma InlineAgrees(oid: Oid, target: Target, old': Value, b: bytes)
    requires Supported(oid, target) && Inline(InlineOpFor(oid, target), b).Some?
    ensures Set(oid, target, old', Some(b)) == Inline(InlineOpFor(oid, target), b)
  {
    hide Convert, ReadI16, ReadI32, ReadI64;
    if InlineOpFor(oid, target).OpInt? {
      ConvertExactIff(target.kind, ReadInt(b));
    }
  }

  /** The cells after which a field still shows (part of) what it held before. */
  predicate Leaves(target: Target, raw: Raw)
  {
    match (target, raw)
    case (TInt(_), None) => true
    case (NullInt(_), None) => true
    case (TTime, None) => true
    case (TTime, Some(b)) => |b| != 8 || ReadI64(b) == TWO_63 - 1 || ReadI64(b) == -TWO_63
    case _ => false
  }

  /** So a reused slot is safe without clearing exactly when no such cell comes. */
  lemma SetOverwritesIff(oid: Oid, target: Target, raw: Raw)
    requires Supported(oid, target)
    ensures (forall a, b :: Set(oid, target, a, raw) == Set(oid, target, b, raw)) <==> !Leaves(target, raw)
  {
    if Leaves(target, raw) {
      assert Set(oid, target, VNull(0, true), raw) != Set(oid, target, VNull(1, true), raw);
    }
  }

  // ---- One row ------------------------------------------------------------------------

  datatype Column = Column(skip: bool, field: nat, oid: Oid, target: Target)

  type StructPlan = seq<Column>
  type Slot = seq<Value>

  predicate Usable(sp: StructPlan, fields: nat)
  {
    forall i :: 0 <= i < |sp| && !sp[i].skip ==> sp[i].field < fields && Supported(sp[i].oid, sp[i].target)
  }

  function Store(c: Column, slot: Slot, raw: Raw): (r: Option<Slot>)
    requires c.skip || (c.field < |slot| && Supported(c.oid, c.target))
    ensures r.Some? ==> |r.value| == |slot|
  {
    if c.skip then Some(slot)
    else
      var v :- Set(c.oid, c.target, slot[c.field], raw);
      Some(slot[c.field := v])
  }

  /** The columns' cells, stored left to right. */
  function StoreAll(sp: StructPlan, slot: Slot, cells: seq<Raw>): (r: Option<Slot>)
    requires |cells| <= |sp| && Usable(sp, |slot|)
    ensures r.Some? ==> |r.value| == |slot|
  {
    if cells == [] then Some(slot)
    else
      var n := |cells| - 1;
      var s :- StoreAll(sp, slot, cells[..n]);
      Store(sp[n], s, cells[n])
  }

  /** What a DataRow makes of a slot. */
  function Fill(sp: StructPlan, slot: Slot, body: bytes): (r: Option<Slot>)
    requires Usable(sp, |slot|)
    ensures r.Some? ==> |r.value| == |slot|
  {
    var cells :- DecodeRow(body, |sp|);
    StoreAll(sp, slot, cells)
  }

  lemma {:induction false} StoreAllFails(sp: StructPlan, slot: Slot, cells: seq<Raw>, k: nat)
    requires k <= |cells| <= |sp| && Usable(sp, |slot|) && StoreAll(sp, slot, cells[..k]).None?
    ensures StoreAll(sp, slot, cells).None?
  {
    if k < |cells| {
      assert cells[..|cells| - 1][..k] == cells[..k];
      StoreAllFails(sp, slot, cells[..|cells| - 1], k);
    } else {
      assert cells[..k] == cells;
    }
  }

  lemma {:induction false} CellsPrefix(s: bytes, i: nat, n: nat)
    requires i <= n && TakeCells(s, n).Some?
    ensures TakeCells(s, i).Some? && TakeCells(s, i).value.0 == TakeCells(s, n).value.0[..i]
  {
    hide TakeCell;
    if i < n {
      CellsPrefix(s, i, n - 1);
    }
  }

  /** A cell that cannot be stored makes the whole row fail. */
  lemma FillFails(sp: StructPlan, slot: Slot, body: bytes, k: nat)
    requires Usable(sp, |slot|) && |body| >= 2 && ReadI16(body[..2]) == |sp| && k <= |sp|
    requires TakeCells(body[2..], k).Some? && StoreAll(sp, slot, TakeCells(body[2..], k).value.0).None?
    ensures Fill(sp, slot, body).None?
  {
    hide ReadI16;
    if DecodeRow(body, |sp|).Some? {
      CellsPrefix(body[2..], k, |sp|);
      StoreAllFails(sp, slot, DecodeRow(body, |sp|).value, k);
    }
  }

  /** Writes one field: inline if the opcode and the length allow it, else through the setter. */
  method StoreCell(slots: array<Slot>, k: nat, c: Column, raw: Raw) returns (ok: bool)
    requires k < slots.Length && !c.skip && c.field < |slots[k]| && Supported(c.oid, c.target)
    modifies slots
    ensures ok <==> Store(c, old(slots[k]), raw).Some?
    ensures slots[k] == if ok then Store(c, old(slots[k]), raw).value else old(slots[k])
    ensures forall j :: 0 <= j < slots.Length && j != k ==> slots[j] == old(slots[j])
  {
    hide Set, Inline, InlineOpFor;
    if raw.Some? {
      var direct := Inline(InlineOpFor(c.oid, c.target), raw.value);
      if direct.Some? {
        InlineAgrees(c.oid, c.target, slots[k][c.field], raw.value);
        slots[k] := slots[k][c.field := direct.value];
        return true;
      }
    }
    var v := Set(c.oid, c.target, slots[k][c.field], raw);
    if v.None? {
      return false;
    }
    slots[k] := slots[k][c.field := v.value];
    ok := true;
  }

  lemma StoreStep(sp: StructPlan, slot: Slot, cells: seq<Raw>, raw: Raw, s: Slot)
    requires |cells| < |sp| && Usable(sp, |slot|) && StoreAll(sp, slot, cells) == Some(s)
    ensures |s| == |slot| && StoreAll(sp, slot, cells + [raw]) == Store(sp[|cells|], s, raw)
  {
    hide Store;
    assert (cells + [raw])[..|cells|] == cells;
  }

  lemma FillIs(sp: StructPlan, slot: Slot, body: bytes, cells: seq<Raw>, rest: bytes)
    requires Usable(sp, |slot|) && |body| >= 2 && ReadI16(body[..2]) == |sp| == |cells|
    requires TakeCells(body[2..], |sp|) == Some((cells, rest))
    ensures Fill(sp, slot, body) == StoreAll(sp, slot, cells)
  {
    hide ReadI16, StoreAll, TakeCells;
  }

  method FillStructRow(slots: array<Slot>, k: nat, body: bytes, sp: StructPlan) returns (ok: bool)
    requires k < slots.Length && Usable(sp, |slots[k]|)
    modifies slots
    ensures ok <==> Fill(sp, old(slots[k]), body).Some?
    ensures ok ==> slots[k] == Fill(sp, old(slots[k]), body).value
    ensures forall j :: 0 <= j < slots.Length && j != k ==> slots[j] == old(slots[j])
  {
    ghost var slot := slots[k];
    hide TakeCell, TakeCells, Store, StoreAll, ReadI16, Supported;
    ok := false;
    if |body| < 2 {
      return;
    }
    var n := ReadI16(body[..2]);
    if n != |sp| {
      return;
    }
    var rest := body[2..];
    ghost var cells: seq<Raw> := [];
    NothingYet(body[2..], sp, slot);
    for i := 0 to n
      invariant |cells| == i && TakeCells(body[2..], i) == Some((cells, rest))
      invariant StoreAll(sp, slot, cells) == Some(slots[k])
      invariant forall j :: 0 <= j < slots.Length && j != k ==> slots[j] == old(slots[j])
    {
      var next := NextCell(rest);
      if next.None? {
        NoCellNoRow(sp, slot, body, i, rest, cells);
        return;
      }
      var raw := next.value.0;
      StoreStep(sp, slot, cells, raw, slots[k]);
      TakeCellsStep(body[2..], cells, raw, rest, next.value.1);
      rest := next.value.1;
      cells := cells + [raw];
      var c := sp[i];
      if c.skip {
        SkipStores(c, slots[k], raw);
        continue;
      }
      var stored := StoreCell(slots, k, c, raw);
      if !stored {
        FillFails(sp, slot, body, i + 1);
        return;
      }
    }
    FillIs(sp, slot, body, cells, rest);
    ok := true;
  }

  lemma NothingYet(s: bytes, sp: StructPlan, slot: Slot)
    requires Usable(sp, |slot|)
    ensures TakeCells(s, 0) == Some(([], s)) && StoreAll(sp, slot, []) == Some(slot)
  {
  }

  lemma NoCellNoRow(sp: StructPlan, slot: Slot, body: bytes, i: nat, rest: bytes, cells: seq<Raw>)
    requires Usable(sp, |slot|) && |body| >= 2 && i < |sp|
    requires TakeCells(body[2..], i) == Some((cells, rest)) && TakeCell(rest).None?
    ensures Fill(sp, slot, body).None?
  {
    hide StoreAll, ReadI16, TakeCell;
    TakeCellsFails(body[2..], i + 1, |sp|);
  }

  lemma SkipStores(c: Column, slot: Slot, raw: Raw)
    requires c.skip
    ensures Store(c, slot, raw) == Some(slot)
  {
  }

  // ---- Whole results ------------------------------------------------------------------------

  datatype Msg =
    | DataRow(body: bytes) | RowDescription(sp: Option<StructPlan>) | Quiet | ErrorMsg(code: string) | ReadyForQuery | Other

  datatype End = Done | ServerError(code: string) | RowError | PlanError | UnexpectedMsg | WireError | CallbackError

  predicate UsableMsgs(msgs: seq<Msg>, fields: nat)
  {
    forall i :: 0 <= i < |msgs| && msgs[i].RowDescription? && msgs[i].sp.Some? ==> Usable(msgs[i].sp.value, fields)
  }

  /** Reading an answer: the rows so far and a pending error, or where it stopped. */
  datatype Progress =
    | Going(sp: StructPlan, rows: seq<Slot>, err: Option<string>)
    | Stopped(end: End, kept: seq<Slot>)

  predicate Fine(p: Progress, fields: nat) { p.Going? ==> Usable(p.sp, fields) }

  /** One message; every row is filled from a zero slot. */
  function Step(p: Progress, zero: Slot, msg: Msg): (q: Progress)
    requires p.Going? && Fine(p, |zero|) && UsableMsgs([msg], |zero|)
    ensures Fine(q, |zero|) && p.rows <= if q.Going? then q.rows else q.kept
  {
    match msg
    case DataRow(body) =>
      (match Fill(p.sp, zero, body)
       case None => Stopped(RowError, p.rows)
       case Some(row) => p.(rows := p.rows + [row]))
    case RowDescription(sp') =>
      assert [msg][0] == msg;
      if sp'.None? then Stopped(PlanError, p.rows) else p.(sp := sp'.value)
    case Quiet => p
    case ErrorMsg(code) => p.(err := Some(code))
    case ReadyForQuery => Stopped(if p.err.Some? then ServerError(p.err.value) else Done, p.rows)
    case Other => Stopped(UnexpectedMsg, p.rows)
  }

  lemma FirstUsable(msgs: seq<Msg>, fields: nat)
    requires UsableMsgs(msgs, fields) && msgs != []
    ensures UsableMsgs([msgs[0]], fields) && UsableMsgs(msgs[1..], fields)
  {
    hide Usable;
  }

  /** The rows of the answer and how it ends. */
  function Collect(p: Progress, zero: Slot, msgs: seq<Msg>): (r: (End, seq<Slot>))
    requires p.Going? && Fine(p, |zero|) && UsableMsgs(msgs, |zero|)
    ensures p.rows <= r.1
    decreases |msgs|
  {
    if msgs == [] then (WireError, p.rows)
    else
      FirstUsable(msgs, |zero|);
      var q := Step(p, zero, msgs[0]);
      if q.Stopped? then (q.end, q.kept) else Collect(q, zero, msgs[1..])
  }

  lemma CollectStep(p: Progress, zero: Slot, msgs: seq<Msg>, i: nat)
    requires i < |msgs| && p.Going? && Fine(p, |zero|) && UsableMsgs(msgs[i..], |zero|)
    ensures UsableMsgs([msgs[i]], |zero|) && UsableMsgs(msgs[i + 1..], |zero|)
    ensures var q := Step(p, zero, msgs[i]);
            Collect(p, zero, msgs[i..]) == if q.Stopped? then (q.end, q.kept) else Collect(q, zero, msgs[i + 1..])
  {
    hide Step, Usable, Fine, UsableMsgs;
    FirstUsable(msgs[i..], |zero|);
    assert msgs[i..][1..] == msgs[i + 1..];
  }

  lemma CollectEnd(p: Progress, zero: Slot, msgs: seq<Msg>)
    requires msgs == [] && p.Going? && Fine(p, |zero|) && UsableMsgs(msgs, |zero|)
    ensures Collect(p, zero, msgs) == (WireError, p.rows)
  {
  }

  /** All slots from `lo` on hold the zero value. */
  ghost predicate ZeroFrom(slots: array<Slot>, lo: nat, zero: Slot)
    reads slots
  {
    forall k :: lo <= k < slots.Length ==> slots[k] == zero
  }

  /** Twice the room: the rows are copied, the new tail is zero. */
  method Grow(slots: array<Slot>, zero: Slot) returns (bigger: array<Slot>)
    requires slots.Length > 0
    ensures fresh(bigger) && bigger.Length == 2 * slots.Length
    ensures bigger[..slots.Length] == slots[..] && ZeroFrom(bigger, slots.Length, zero)
  {
    bigger := new Slot[2 * slots.Length](_ => zero);
    for i := 0 to slots.Length
      invariant bigger[..i] == slots[..i] && ZeroFrom(bigger, slots.Length, zero)
      invariant slots[..] == old(slots[..])
    {
      bigger[i] := slots[i];
    }
  }

  /** ScanStruct: one growing slice; the result is its first `rowCount` slots. */
  method BindExecuteScan(sp0: StructPlan, zero: Slot, msgs: seq<Msg>, rowsHint: int) returns (end: End, rows: seq<Slot>)
    requires Usable(sp0, |zero|) && UsableMsgs(msgs, |zero|)
    ensures end == Collect(Going(sp0, [], None), zero, msgs).0
    ensures rows == if end.Done? then Collect(Going(sp0, [], None), zero, msgs).1 else []
  {
    hide Fill, Usable, UsableMsgs, Collect;
    rows := [];
    var initialCap := if rowsHint > 0 then rowsHint else 16;
    var data := new Slot[initialCap](_ => zero);
    var rowCount, i := 0, 0;
    var sp := sp0;
    var pgError: Option<string> := None;
    SameMsgs(msgs, |zero|);
    while i < |msgs|
      invariant 0 <= i <= |msgs| && 0 <= rowCount <= data.Length && data.Length > 0 && fresh(data)
      invariant ZeroFrom(data, rowCount, zero)
      invariant Usable(sp, |zero|) && UsableMsgs(msgs[i..], |zero|)
      invariant Collect(Going(sp0, [], None), zero, msgs) == Collect(Going(sp, data[..rowCount], pgError), zero, msgs[i..])
    {
      CollectStep(Going(sp, data[..rowCount], pgError), zero, msgs, i);
      var msg := msgs[i];
      i := i + 1;
      match msg {
        case DataRow(body) =>
          ghost var before := data[..rowCount];
          if rowCount == data.Length {
            data := Grow(data, zero);
          }
          assert data[..rowCount] == before;
          var ok := FillStructRow(data, rowCount, body, sp);
          if !ok {
            end := RowError;
            return;
          }
          assert data[..rowCount + 1] == before + [data[rowCount]];
          rowCount := rowCount + 1;
        case RowDescription(sp') =>
          if sp'.None? {
            end := PlanError;
            return;
          }
          sp := sp'.value;
        case Quiet =>
        case ErrorMsg(code) =>
          pgError := Some(code);
        case ReadyForQuery =>
          if pgError.Some? {
            end := ServerError(pgError.value);
            return;
          }
          return Done, data[..rowCount];
        case Other =>
          end := UnexpectedMsg;
          return;
      }
    }
    CollectEnd(Going(sp, data[..rowCount], pgError), zero, msgs[i..]);
    end := WireError;
  }

  lemma SameMsgs(msgs: seq<Msg>, fields: nat)
    requires UsableMsgs(msgs, fields)
    ensures msgs[0..] == msgs && UsableMsgs(msgs[0..], fields)
  {
    assert msgs[0..] == msgs;
  }

  // ---- Batches ---------------------------------------------------------------------------------

  function Flat(calls: seq<seq<Slot>>): seq<Slot>
  {
    if calls == [] then [] else Flat(calls[..|calls| - 1]) + calls[|calls| - 1]
  }

  /** Whether the caller's callback accepts its call number `k`. */
  predicate Accepts(verdicts: seq<bool>, k: nat) { k < |verdicts| ==> verdicts[k] }

  /** No call is empty, and all but the last carry exactly `batchSize` rows. */
  ghost predicate Batched(calls: seq<seq<Slot>>, batchSize: nat)
  {
    forall k :: 0 <= k < |calls| ==> 0 < |calls[k]| <= batchSize && (k < |calls| - 1 ==> |calls[k]| == batchSize)
  }

  ghost predicate AllFull(calls: seq<seq<Slot>>, batchSize: nat)
  {
    forall k :: 0 <= k < |calls| ==> |calls[k]| == batchSize
  }

  /** Only the last call may have been refused. */
  ghost predicate Accepted(calls: seq<seq<Slot>>, verdicts: seq<bool>, all: bool)
  {
    forall k :: 0 <= k < |calls| && (all || k < |calls| - 1) ==> Accepts(verdicts, k)
  }

  lemma FlatStep(calls: seq<seq<Slot>>, batch: seq<Slot>)
    ensures Flat(calls + [batch]) == Flat(calls) + batch
  {
    assert (calls + [batch])[..|calls|] == calls;
  }

  /** Hands over the filled slots and zeroes them. */
  method FlushBatch(batch: array<Slot>, rowCount: nat, zero: Slot, calls: seq<seq<Slot>>, verdicts: seq<bool>)
    returns (ok: bool, calls': seq<seq<Slot>>)
    requires rowCount <= batch.Length && ZeroFrom(batch, rowCount, zero)
    modifies batch
    ensures calls' == if rowCount == 0 then calls else calls + [old(batch[..rowCount])]
    ensures ok == (rowCount == 0 || Accepts(verdicts, |calls|))
    ensures ok ==> ZeroFrom(batch, 0, zero)
  {
    ok, calls' := true, calls;
    if rowCount == 0 {
      return;
    }
    calls' := calls + [batch[..rowCount]];
    if |calls| < |verdicts| && !verdicts[|calls|] {
      return false, calls';
    }
    ClearBatchSlots(batch, rowCount, zero);
  }

  method ClearBatchSlots(batch: array<Slot>, n: nat, zero: Slot)
    requires n <= batch.Length
    modifies batch
    ensures forall k :: 0 <= k < n ==> batch[k] == zero
    ensures forall k :: n <= k < batch.Length ==> batch[k] == old(batch[k])
  {
    for i := 0 to n
      invariant forall k :: 0 <= k < i ==> batch[k] == zero
      invariant forall k :: i <= k < batch.Length ==> batch[k] == old(batch[k])
    {
      batch[i] := zero;
    }
  }

  /** Where the batched loop stands while no callback has failed. */
  ghost predicate InBatch(p: Progress, calls: seq<seq<Slot>>, current: seq<Slot>, batchSize: nat, verdicts: seq<bool>)
  {
    p.Going? && p.rows == Flat(calls) + current && AllFull(calls, batchSize) && Accepted(calls, verdicts, true)
  }

  /** What the calls have to do with the rows `all` of the whole answer. */
  ghost predicate BatchLaw(calls: seq<seq<Slot>>, batchSize: nat, verdicts: seq<bool>, all: seq<Slot>)
  {
    Batched(calls, batchSize) && Accepted(calls, verdicts, false) && Flat(calls) <= all
  }

  lemma InBatchLaw(p: Progress, calls: seq<seq<Slot>>, current: seq<Slot>, batchSize: nat, verdicts: seq<bool>,
                   all: seq<Slot>)
    requires InBatch(p, calls, current, batchSize, verdicts) && p.rows <= all && batchSize > 0
    ensures BatchLaw(calls, batchSize, verdicts, all)
    ensures 0 < |current| <= batchSize ==> BatchLaw(calls + [current], batchSize, verdicts, all)
  {
    hide Accepts;
    FlatStep(calls, current);
    assert (Flat(calls) + current)[..|Flat(calls)|] == Flat(calls);
  }

  lemma {:induction false} FullLength(calls: seq<seq<Slot>>, batchSize: nat)
    requires AllFull(calls, batchSize)
    ensures |Flat(calls)| == |calls| * batchSize
  {
    if calls != [] {
      var n := |calls| - 1;
      FullLength(calls[..n], batchSize);
      assert |Flat(calls)| == |Flat(calls[..n])| + batchSize;
      assert (n + 1) * batchSize == n * batchSize + batchSize;
    }
  }

  lemma InBatchNext(p: Progress, q: Progress, calls: seq<seq<Slot>>, current: seq<Slot>, current': seq<Slot>,
                    row: Slot, batchSize: nat, verdicts: seq<bool>)
    requires InBatch(p, calls, current, batchSize, verdicts) && current' == current + [row]
    requires q.Going? && q.rows == p.rows + [row]
    ensures InBatch(q, calls, current', batchSize, verdicts)
    ensures |current'| == batchSize && Accepts(verdicts, |calls|) ==> InBatch(q, calls + [current'], [], batchSize, verdicts)
  {
    FlatStep(calls, current');
    assert q.rows == Flat(calls) + current';
    if |current'| == batchSize && Accepts(verdicts, |calls|) {
      assert q.rows == Flat(calls + [current']) + [];
    }
  }

  datatype RowStatus = Next | BadRow | Refused

  /** One row into the next slot; a full batch is handed over. */
  method OnBatchRow(batch: array<Slot>, rowCount: nat, body: bytes, sp: StructPlan, zero: Slot, calls: seq<seq<Slot>>,
                    verdicts: seq<bool>, ghost p: Progress)
    returns (status: RowStatus, rowCount': nat, calls': seq<seq<Slot>>)
    requires rowCount < batch.Length && ZeroFrom(batch, rowCount, zero) && Usable(sp, |zero|)
    requires p.Going? && p.sp == sp && InBatch(p, calls, batch[..rowCount], batch.Length, verdicts)
    modifies batch
    ensures rowCount' <= batch.Length
    ensures status.BadRow? <==> Fill(sp, zero, body).None?
    ensures status.BadRow? ==> calls' == calls
    ensures !status.BadRow? ==>
              var q := p.(rows := p.rows + [Fill(sp, zero, body).value]);
              && (status.Next? ==> rowCount' < batch.Length && ZeroFrom(batch, rowCount', zero)
                                   && InBatch(q, calls', batch[..rowCount'], batch.Length, verdicts))
              && (status.Refused? ==> !Accepted(calls', verdicts, true) && Flat(calls') == q.rows
                                      && calls' != [] && |calls'[|calls'| - 1]| == batch.Length
                                      && forall all :: q.rows <= all ==> BatchLaw(calls', batch.Length, verdicts, all))
  {
    hide Fill, Usable, InBatch, BatchLaw, Accepted;
    ghost var before := batch[..rowCount];
    rowCount', calls' := rowCount, calls;
    var ok := FillStructRow(batch, rowCount, body, sp);
    if !ok {
      return BadRow, rowCount, calls;
    }
    rowCount' := rowCount + 1;
    ghost var row := batch[rowCount];
    ghost var q := p.(rows := p.rows + [row]);
    ghost var current := batch[..rowCount'];
    assert current == before + [row];
    InBatchNext(p, q, calls, before, current, row, batch.Length, verdicts);
    status := Next;
    if rowCount' == batch.Length {
      forall all | q.rows <= all ensures BatchLaw(calls + [current], batch.Length, verdicts, all) {
        InBatchLaw(q, calls, current, batch.Length, verdicts, all);
      }
      RefusedCall(q, calls, current, batch.Length, verdicts);
      FlatOfBatch(q, calls, current, batch.Length, verdicts);
      var accepted;
      accepted, calls' := FlushBatch(batch, rowCount', zero, calls, verdicts);
      if !accepted {
        return Refused, rowCount', calls';
      }
      rowCount' := 0;
      assert batch[..0] == [];
    }
  }

  lemma FlatOfBatch(p: Progress, calls: seq<seq<Slot>>, current: seq<Slot>, batchSize: nat, verdicts: seq<bool>)
    requires InBatch(p, calls, current, batchSize, verdicts)
    ensures Flat(calls + [current]) == p.rows
  {
    FlatStep(calls, current);
  }

  /** The position right behind DataRow number `n`, counting from 1. */
  function Behind(msgs: seq<Msg>, n: nat): (i: nat)
    ensures i <= |msgs|
    decreases |msgs|
  {
    if n == 0 || msgs == [] then 0 else 1 + Behind(msgs[1..], if msgs[0].DataRow? then n - 1 else n)
  }

  /** `n` DataRows stand before position `i`. */
  ghost predicate Located(msgs: seq<Msg>, i: nat, n: nat)
    requires i <= |msgs|
  {
    forall m: nat :: m > 0 ==> i + Behind(msgs[i..], m) == Behind(msgs, n + m)
  }

  lemma LocatedStart(msgs: seq<Msg>)
    ensures Located(msgs, 0, 0)
  {
    assert msgs[0..] == msgs;
  }

  lemma LocatedStep(msgs: seq<Msg>, i: nat, n: nat)
    requires i < |msgs| && Located(msgs, i, n)
    ensures Located(msgs, i + 1, if msgs[i].DataRow? then n + 1 else n)
    ensures msgs[i].DataRow? ==> Behind(msgs, n + 1) == i + 1
  {
    var j, n' := i + 1, if msgs[i].DataRow? then n + 1 else n;
    assert msgs[i..][1..] == msgs[j..];
    assert msgs[i].DataRow? ==> i + Behind(msgs[i..], 1) == Behind(msgs, n + 1);
    forall m: nat | m > 0 ensures j + Behind(msgs[j..], m) == Behind(msgs, n' + m) {
      var k := if msgs[i].DataRow? then m + 1 else m;
      assert i + Behind(msgs[i..], k) == Behind(msgs, n + k);
    }
  }

  /** How many of `n` rows reach the callback when the answer ends this way and no call is refused. */
  function Delivered(e: End, n: nat, batchSize: nat): int
    requires batchSize > 0
  {
    if e.Done? then n else n - n % batchSize
  }

  /**
   The calls hold the rows of the unbatched result `all`, in order, and nothing else. With no
   refusal the outcome is the unbatched one; after a refused call there is no other, and the
   callback's error is returned unless what follows the row that completed the batch prevents it.
  */
  ghost predicate BatchOutcome(end: End, calls: seq<seq<Slot>>, batchSize: nat, verdicts: seq<bool>,
                               all: (End, seq<Slot>), msgs: seq<Msg>)
    requires batchSize > 0
  {
    && BatchLaw(calls, batchSize, verdicts, all.1)
    && (Accepted(calls, verdicts, true) ==> end == all.0 && |Flat(calls)| == Delivered(all.0, |all.1|, batchSize))
    && (!Accepted(calls, verdicts, true) ==>
          calls != [] && if |calls[|calls| - 1]| == batchSize then end == DrainEnd(msgs[Behind(msgs, |Flat(calls)|)..])
                         else end == CallbackError && all.0.Done? && Flat(calls) == all.1)
  }

  /** The answer stops between two calls. */
  lemma StopOutcome(p: Progress, calls: seq<seq<Slot>>, current: seq<Slot>, batchSize: nat, verdicts: seq<bool>,
                    all: (End, seq<Slot>), msgs: seq<Msg>)
    requires InBatch(p, calls, current, batchSize, verdicts) && p.rows == all.1 && |current| < batchSize
    requires !all.0.Done?
    ensures BatchOutcome(all.0, calls, batchSize, verdicts, all, msgs)
  {
    hide InBatch, BatchLaw, Accepted, DrainEnd, Behind;
    EndInBatch(p, calls, current, batchSize, verdicts, all.1);
  }

  /** The answer is complete: the last batch, if there is one, is handed over. */
  lemma LastOutcome(p: Progress, calls: seq<seq<Slot>>, current: seq<Slot>, batchSize: nat, verdicts: seq<bool>,
                    all: (End, seq<Slot>), msgs: seq<Msg>)
    requires InBatch(p, calls, current, batchSize, verdicts) && p.rows == all.1 && |current| < batchSize
    requires all.0.Done?
    ensures current == [] ==> BatchOutcome(Done, calls, batchSize, verdicts, all, msgs)
    ensures current != [] ==>
              var end := if Accepts(verdicts, |calls|) then Done else CallbackError;
              BatchOutcome(end, calls + [current], batchSize, verdicts, all, msgs)
  {
    hide InBatch, BatchLaw, Accepted, Accepts, DrainEnd, Behind;
    EndInBatch(p, calls, current, batchSize, verdicts, all.1);
    LastBatch(p, calls, current, batchSize, verdicts);
    FlatOfBatch(p, calls, current, batchSize, verdicts);
  }

  /** ScanStructBatched: one batch of slots, handed to the callback when full and then zeroed. */
  method BindExecuteScanBatched(sp0: StructPlan, zero: Slot, msgs: seq<Msg>, batchSize: nat, verdicts: seq<bool>)
    returns (end: End, calls: seq<seq<Slot>>)
    requires batchSize > 0 && Usable(sp0, |zero|) && UsableMsgs(msgs, |zero|)
    ensures BatchOutcome(end, calls, batchSize, verdicts, Collect(Going(sp0, [], None), zero, msgs), msgs)
  {
    hide Fill, Usable, UsableMsgs, Collect, InBatch, BatchLaw, Accepted, Accepts, Located, Behind, DrainEnd, BatchOutcome;
    var batch := new Slot[batchSize](_ => zero);
    calls := [];
    var rowCount, i := 0, 0;
    var sp := sp0;
    var pgError: Option<string> := None;
    ghost var all := Collect(Going(sp0, [], None), zero, msgs);
    ghost var p := Going(sp0, [], None);
    SameMsgs(msgs, |zero|);
    InBatchStart(p, batchSize, verdicts);
    LocatedStart(msgs);
    while i < |msgs|
      invariant 0 <= i <= |msgs| && 0 <= rowCount < batchSize == batch.Length && fresh(batch)
      invariant ZeroFrom(batch, rowCount, zero)
      invariant p.Going? && p.sp == sp && p.err == pgError && Fine(p, |zero|) && UsableMsgs(msgs[i..], |zero|)
      invariant all == Collect(p, zero, msgs[i..])
      invariant InBatch(p, calls, batch[..rowCount], batchSize, verdicts)
      invariant Located(msgs, i, |p.rows|)
    {
      LocatedStep(msgs, i, |p.rows|);
      CollectStep(p, zero, msgs, i);
      var msg := msgs[i];
      i := i + 1;
      ghost var q := Step(p, zero, msg);
      ghost var current := batch[..rowCount];
      match msg {
        case DataRow(body) =>
          if Fill(sp, zero, body).None? {
            StopOutcome(p, calls, current, batchSize, verdicts, all, msgs);
          }
          var status;
          status, rowCount, calls := OnBatchRow(batch, rowCount, body, sp, zero, calls, verdicts, p);
          if status.BadRow? {
            end := RowError;
            return;
          }
          p := q;
          if status.Refused? {
            end := DrainAfterCallbackError(msgs, i);
            assert Flat(calls) == q.rows && Behind(msgs, |q.rows|) == i;
            RefusedOutcome(calls, batchSize, verdicts, all, msgs, i);
            return;
          }
        case RowDescription(sp') =>
          if sp'.None? {
            StopOutcome(p, calls, current, batchSize, verdicts, all, msgs);
            end := PlanError;
            return;
          }
          sp := sp'.value;
          InBatchSame(p, q, calls, current, batchSize, verdicts);
          p := q;
        case Quiet =>
        case ErrorMsg(code) =>
          pgError := Some(code);
          InBatchSame(p, q, calls, current, batchSize, verdicts);
          p := q;
        case ReadyForQuery =>
          if pgError.Some? {
            StopOutcome(p, calls, current, batchSize, verdicts, all, msgs);
            end := ServerError(pgError.value);
            return;
          }
          LastOutcome(p, calls, current, batchSize, verdicts, all, msgs);
          var accepted;
          accepted, calls := FlushBatch(batch, rowCount, zero, calls, verdicts);
          end := if accepted then Done else CallbackError;
          return;
        case Other =>
          StopOutcome(p, calls, current, batchSize, verdicts, all, msgs);
          end := UnexpectedMsg;
          return;
      }
    }
    CollectEnd(p, zero, msgs[i..]);
    StopOutcome(p, calls, batch[..rowCount], batchSize, verdicts, all, msgs);
    end := WireError;
  }

  lemma RefusedOutcome(calls: seq<seq<Slot>>, batchSize: nat, verdicts: seq<bool>, all: (End, seq<Slot>),
                       msgs: seq<Msg>, i: nat)
    requires batchSize > 0 && i <= |msgs| && !Accepted(calls, verdicts, true) && BatchLaw(calls, batchSize, verdicts, all.1)
    requires calls != [] && |calls[|calls| - 1]| == batchSize && Behind(msgs, |Flat(calls)|) == i
    ensures BatchOutcome(DrainEnd(msgs[i..]), calls, batchSize, verdicts, all, msgs)
  {
    hide Accepted, BatchLaw, Behind, DrainEnd;
  }

  /** How a scan ends once a call has been refused: rows and server errors no longer matter. */
  function DrainEnd(msgs: seq<Msg>): End
    decreases |msgs|
  {
    if msgs == [] then WireError
    else
      match msgs[0]
      case ReadyForQuery => CallbackError
      case Other => UnexpectedMsg
      case RowDescription(sp) => if sp.None? then PlanError else DrainEnd(msgs[1..])
      case _ => DrainEnd(msgs[1..])
  }

  /** After a refused call the rest of the answer is read and thrown away. */
  method DrainAfterCallbackError(msgs: seq<Msg>, start: nat) returns (end: End)
    requires start <= |msgs|
    ensures end == DrainEnd(msgs[start..])
  {
    var i := start;
    while i < |msgs|
      invariant start <= i <= |msgs| && DrainEnd(msgs[start..]) == DrainEnd(msgs[i..])
    {
      assert msgs[i..][1..] == msgs[i + 1..];
      match msgs[i] {
        case ReadyForQuery => return CallbackError;
        case Other => return UnexpectedMsg;
        case RowDescription(sp) =>
          if sp.None? {
            return PlanError;
          }
        case _ =>
      }
      i := i + 1;
    }
    end := WireError;
  }

  lemma InBatchStart(p: Progress, batchSize: nat, verdicts: seq<bool>)
    requires p.Going? && p.rows == []
    ensures InBatch(p, [], [], batchSize, verdicts)
  {
  }

  lemma InBatchSame(p: Progress, q: Progress, calls: seq<seq<Slot>>, current: seq<Slot>, batchSize: nat,
                    verdicts: seq<bool>)
    requires InBatch(p, calls, current, batchSize, verdicts) && q.Going? && q.rows == p.rows
    ensures InBatch(q, calls, current, batchSize, verdicts)
  {
  }

  /** Stopping between callbacks: the full batches are out, the rest of the rows is not. */
  lemma EndInBatch(p: Progress, calls: seq<seq<Slot>>, current: seq<Slot>, batchSize: nat, verdicts: seq<bool>,
                   all: seq<Slot>)
    requires InBatch(p, calls, current, batchSize, verdicts) && p.rows == all && |current| < batchSize
    ensures BatchLaw(calls, batchSize, verdicts, all) && Accepted(calls, verdicts, true)
    ensures |Flat(calls)| == |all| - |all| % batchSize
    ensures |Flat(calls)| + |current| == |all|
    ensures current == [] ==> |Flat(calls)| == |all|
    ensures current != [] ==> BatchLaw(calls + [current], batchSize, verdicts, all)
  {
    InBatchLaw(p, calls, current, batchSize, verdicts, all);
    FullLength(calls, batchSize);
    assert |all| == |calls| * batchSize + |current|;
    DivIs(|all|, batchSize, |calls|, |current|) by {
      assert |calls| * batchSize == batchSize * |calls|;
    }
  }

  lemma RefusedCall(p: Progress, calls: seq<seq<Slot>>, current: seq<Slot>, batchSize: nat, verdicts: seq<bool>)
    requires InBatch(p, calls, current, batchSize, verdicts)
    ensures Accepted(calls + [current], verdicts, true) <==> Accepts(verdicts, |calls|)
  {
    assert (calls + [current])[|calls|] == current;
  }

  lemma LastBatch(p: Progress, calls: seq<seq<Slot>>, current: seq<Slot>, batchSize: nat, verdicts: seq<bool>)
    requires InBatch(p, calls, current, batchSize, verdicts)
    ensures |Flat(calls + [current])| == |p.rows|
    ensures Accepted(calls + [current], verdicts, true) <==> Accepts(verdicts, |calls|)
  {
    FlatStep(calls, current);
    RefusedCall(p, calls, current, batchSize, verdicts);
  }

  /** Why slots are cleared: without it a NULL would show the row that used the slot before. */
  lemma StaleValueShows()
    ensures var c := Column.Column(false, 0, OInt4, TInt(Int32));
            Store(c, [VInt(7)], None) == Some([VInt(7)]) && Store(c, [VInt(0)], None) == Some([VInt(0)])
  {
    var zero: Slot := [VInt(0)];
    var seven: Slot := [VInt(7)];
    assert zero[0 := VInt(0)] == zero && seven[0 := VInt(7)] == seven;
  }
}
