/**
 Why a scan ends (pgz/scan.go), told from the messages alone: the rows are the DataRows, one for
 one, and every end has its cause in the message that stopped the loop and the errors before it.
*/
module ScanCauses {
  import opened Bytes
  import opened Rows
  import opened Scan

  /** The struct plan in force behind these messages: that of the last RowDescription. */
  function PlanAt(sp0: StructPlan, msgs: seq<Msg>): StructPlan
  {
    if msgs == [] then sp0
    else if msgs[|msgs| - 1].RowDescription? && msgs[|msgs| - 1].sp.Some? then msgs[|msgs| - 1].sp.value
    else PlanAt(sp0, msgs[..|msgs| - 1])
  }

  lemma {:induction false} PlanUsable(sp0: StructPlan, msgs: seq<Msg>, i: nat, fields: nat)
    requires i <= |msgs| && Usable(sp0, fields) && UsableMsgs(msgs, fields)
    ensures Usable(PlanAt(sp0, msgs[..i]), fields)
  {
    hide Usable;
    if i > 0 {
      PlanUsable(sp0, msgs, i - 1, fields);
      assert msgs[..i][..i - 1] == msgs[..i - 1];
    }
  }

  /** What the DataRow at position `i` makes of a zero slot. */
  function RowAt(sp0: StructPlan, zero: Slot, msgs: seq<Msg>, i: nat): Option<Slot>
    requires i < |msgs| && msgs[i].DataRow? && Usable(sp0, |zero|) && UsableMsgs(msgs, |zero|)
  {
    PlanUsable(sp0, msgs, i, |zero|);
    Fill(PlanAt(sp0, msgs[..i]), zero, msgs[i].body)
  }

  /** The positions of the DataRows among the first `n` messages. */
  function Places(msgs: seq<Msg>, n: nat): (r: seq<nat>)
    requires n <= |msgs|
    ensures forall j :: 0 <= j < |r| ==> r[j] < n && msgs[r[j]].DataRow?
    ensures forall j, k :: 0 <= j < k < |r| ==> r[j] < r[k]
    ensures forall i :: 0 <= i < n && msgs[i].DataRow? ==> i in r
  {
    if n == 0 then [] else Places(msgs, n - 1) + (if msgs[n - 1].DataRow? then [n - 1] else [])
  }

  /** One row per DataRow, in order, each from a zero slot. */
  ghost predicate RowsAre(sp0: StructPlan, zero: Slot, msgs: seq<Msg>, n: nat, rows: seq<Slot>)
    requires n <= |msgs| && Usable(sp0, |zero|) && UsableMsgs(msgs, |zero|)
  {
    var places := Places(msgs, n);
    |rows| == |places| && forall j :: 0 <= j < |rows| ==> RowAt(sp0, zero, msgs, places[j]) == Some(rows[j])
  }

  /** Message `i` does not end the loop. */
  predicate GoesOn(sp0: StructPlan, zero: Slot, msgs: seq<Msg>, i: nat)
    requires i < |msgs| && Usable(sp0, |zero|) && UsableMsgs(msgs, |zero|)
  {
    match msgs[i]
    case DataRow(_) => RowAt(sp0, zero, msgs, i).Some?
    case RowDescription(sp) => sp.Some?
    case ReadyForQuery => false
    case Other => false
    case _ => true
  }

  /** No error among the first `n` messages, or `code` is the last one. */
  ghost predicate ErrorIs(msgs: seq<Msg>, n: nat, err: Option<string>)
    requires n <= |msgs|
  {
    match err
    case None => forall i :: 0 <= i < n ==> !msgs[i].ErrorMsg?
    case Some(code) =>
      exists i :: 0 <= i < n && msgs[i] == ErrorMsg(code) && forall j :: i < j < n ==> !msgs[j].ErrorMsg?
  }

  /** The loop stopped at message `at`, or the answer was cut off there. */
  ghost predicate EndsAt(sp0: StructPlan, zero: Slot, msgs: seq<Msg>, end: End, at: nat)
    requires at <= |msgs| && Usable(sp0, |zero|) && UsableMsgs(msgs, |zero|)
  {
    && (forall i :: 0 <= i < at ==> GoesOn(sp0, zero, msgs, i))
    && match end
       case WireError => at == |msgs|
       case Done => at < |msgs| && msgs[at].ReadyForQuery? && ErrorIs(msgs, at, None)
       case ServerError(code) => at < |msgs| && msgs[at].ReadyForQuery? && ErrorIs(msgs, at, Some(code))
       case RowError => at < |msgs| && msgs[at].DataRow? && !GoesOn(sp0, zero, msgs, at)
       case PlanError => at < |msgs| && msgs[at].RowDescription? && msgs[at].sp.None?
       case UnexpectedMsg => at < |msgs| && msgs[at].Other?
       case CallbackError => false
  }

  /** The loop's state before message `i`. */
  ghost predicate Reached(sp0: StructPlan, zero: Slot, msgs: seq<Msg>, i: nat, p: Progress)
    requires i <= |msgs| && Usable(sp0, |zero|) && UsableMsgs(msgs, |zero|)
  {
    && p.Going? && p.sp == PlanAt(sp0, msgs[..i]) && RowsAre(sp0, zero, msgs, i, p.rows) && ErrorIs(msgs, i, p.err)
    && forall k :: 0 <= k < i ==> GoesOn(sp0, zero, msgs, k)
  }

  lemma UsableRest(msgs: seq<Msg>, i: nat, fields: nat)
    requires i <= |msgs| && UsableMsgs(msgs, fields)
    ensures UsableMsgs(msgs[i..], fields)
    ensures i < |msgs| ==> UsableMsgs([msgs[i]], fields)
  {
    hide Usable;
  }

  lemma PlanNext(sp0: StructPlan, msgs: seq<Msg>, i: nat)
    requires i < |msgs|
    ensures PlanAt(sp0, msgs[..i + 1])
         == if msgs[i].RowDescription? && msgs[i].sp.Some? then msgs[i].sp.value else PlanAt(sp0, msgs[..i])
  {
    assert msgs[..i + 1][..i] == msgs[..i];
  }

  lemma ErrorNext(msgs: seq<Msg>, i: nat, err: Option<string>)
    requires i < |msgs| && ErrorIs(msgs, i, err)
    ensures ErrorIs(msgs, i + 1, if msgs[i].ErrorMsg? then Some(msgs[i].code) else err)
  {
  }

  lemma RowsNext(sp0: StructPlan, zero: Slot, msgs: seq<Msg>, i: nat, rows: seq<Slot>)
    requires i < |msgs| && Usable(sp0, |zero|) && UsableMsgs(msgs, |zero|) && RowsAre(sp0, zero, msgs, i, rows)
    ensures !msgs[i].DataRow? ==> RowsAre(sp0, zero, msgs, i + 1, rows)
    ensures msgs[i].DataRow? && RowAt(sp0, zero, msgs, i).Some? ==>
              RowsAre(sp0, zero, msgs, i + 1, rows + [RowAt(sp0, zero, msgs, i).value])
  {
    hide RowAt, Usable, UsableMsgs;
  }

  /** What the state has to do with the message at hand. */
  lemma StateAt(sp0: StructPlan, zero: Slot, msgs: seq<Msg>, i: nat, p: Progress)
    requires i < |msgs| && Usable(sp0, |zero|) && UsableMsgs(msgs, |zero|) && Reached(sp0, zero, msgs, i, p)
    ensures UsableMsgs([msgs[i]], |zero|) && Fine(p, |zero|)
    ensures p.Going? && RowsAre(sp0, zero, msgs, i, p.rows) && ErrorIs(msgs, i, p.err)
    ensures forall k :: 0 <= k < i ==> GoesOn(sp0, zero, msgs, k)
    ensures msgs[i].DataRow? ==> RowAt(sp0, zero, msgs, i) == Fill(p.sp, zero, msgs[i].body)
  {
    hide Fill, ErrorIs, RowsAre, GoesOn;
    UsableRest(msgs, i, |zero|);
    PlanUsable(sp0, msgs, i, |zero|);
  }

  /** The end a message brings about. */
  lemma StopIs(p: Progress, zero: Slot, msg: Msg)
    requires p.Going? && Fine(p, |zero|) && UsableMsgs([msg], |zero|) && Step(p, zero, msg).Stopped?
    ensures var q := Step(p, zero, msg);
      && q.kept == p.rows
      && match msg
         case DataRow(body) => q.end == RowError && Fill(p.sp, zero, body).None?
         case RowDescription(sp) => q.end == PlanError && sp.None?
         case ReadyForQuery => q.end == if p.err.Some? then ServerError(p.err.value) else Done
         case Other => q.end == UnexpectedMsg
         case _ => false
  {
    hide Fill, Usable;
  }

  lemma Halts(sp0: StructPlan, zero: Slot, msgs: seq<Msg>, i: nat, p: Progress)
    requires i < |msgs| && Usable(sp0, |zero|) && UsableMsgs(msgs, |zero|) && Reached(sp0, zero, msgs, i, p)
    requires p.Going? && UsableMsgs([msgs[i]], |zero|) && Fine(p, |zero|) && Step(p, zero, msgs[i]).Stopped?
    ensures EndsAt(sp0, zero, msgs, Step(p, zero, msgs[i]).end, i)
    ensures RowsAre(sp0, zero, msgs, i, Step(p, zero, msgs[i]).kept)
  {
    hide Step, Reached, Fill, RowAt, PlanAt, ErrorIs, RowsAre, Usable, UsableMsgs, Fine;
    StateAt(sp0, zero, msgs, i, p);
    StopIs(p, zero, msgs[i]);
  }

  lemma Moves(sp0: StructPlan, zero: Slot, msgs: seq<Msg>, i: nat, p: Progress)
    requires i < |msgs| && Usable(sp0, |zero|) && UsableMsgs(msgs, |zero|) && Reached(sp0, zero, msgs, i, p)
    requires p.Going? && UsableMsgs([msgs[i]], |zero|) && Fine(p, |zero|) && Step(p, zero, msgs[i]).Going?
    ensures Reached(sp0, zero, msgs, i + 1, Step(p, zero, msgs[i]))
  {
    StateAt(sp0, zero, msgs, i, p);
    PlanNext(sp0, msgs, i);
    ErrorNext(msgs, i, p.err);
    RowsNext(sp0, zero, msgs, i, p.rows);
    assert GoesOn(sp0, zero, msgs, i) by {
      hide Fill, RowAt, PlanAt, ErrorIs, RowsAre, Usable, UsableMsgs;
    }
    hide Fill, RowAt, PlanAt, ErrorIs, RowsAre, Usable, UsableMsgs, GoesOn;
  }

  /** One message: the state moves on, or the loop ends for the reason the message gives. */
  lemma StepReached(sp0: StructPlan, zero: Slot, msgs: seq<Msg>, i: nat, p: Progress)
    requires i < |msgs| && Usable(sp0, |zero|) && UsableMsgs(msgs, |zero|) && Reached(sp0, zero, msgs, i, p)
    ensures UsableMsgs([msgs[i]], |zero|) && Fine(p, |zero|)
    ensures var q := Step(p, zero, msgs[i]);
            if q.Going? then Reached(sp0, zero, msgs, i + 1, q)
            else EndsAt(sp0, zero, msgs, q.end, i) && RowsAre(sp0, zero, msgs, i, q.kept)
  {
    hide Step, Reached, EndsAt, RowsAre, Usable, UsableMsgs, Fine;
    StateAt(sp0, zero, msgs, i, p);
    if Step(p, zero, msgs[i]).Going? {
      Moves(sp0, zero, msgs, i, p);
    } else {
      Halts(sp0, zero, msgs, i, p);
    }
  }

  lemma {:induction false} CollectFrom(sp0: StructPlan, zero: Slot, msgs: seq<Msg>, i: nat, p: Progress) returns (at: nat)
    requires i <= |msgs| && Usable(sp0, |zero|) && UsableMsgs(msgs, |zero|) && Reached(sp0, zero, msgs, i, p)
    ensures at <= |msgs| && UsableMsgs(msgs[i..], |zero|) && Fine(p, |zero|)
    ensures var (end, rows) := Collect(p, zero, msgs[i..]);
            EndsAt(sp0, zero, msgs, end, at) && RowsAre(sp0, zero, msgs, at, rows)
    decreases |msgs| - i
  {
    UsableRest(msgs, i, |zero|);
    PlanUsable(sp0, msgs, i, |zero|);
    if i == |msgs| {
      at := i;
      CollectEnd(p, zero, msgs[i..]);
    } else {
      StepReached(sp0, zero, msgs, i, p);
      CollectStep(p, zero, msgs, i);
      hide Step, Collect, Reached, EndsAt, RowsAre;
      var q := Step(p, zero, msgs[i]);
      at := i;
      if q.Going? {
        at := CollectFrom(sp0, zero, msgs, i + 1, q);
      }
    }
  }

  /**
   A scan is done only if the first ReadyForQuery came without any error before it; behind an error
   its end is the last error's code; and every other end is that of the one message that stopped it.
   The rows are those of the DataRows before that message, one for one and in order.
  */
  lemma ScanEnds(sp0: StructPlan, zero: Slot, msgs: seq<Msg>) returns (at: nat)
    requires Usable(sp0, |zero|) && UsableMsgs(msgs, |zero|)
    ensures at <= |msgs|
    ensures var (end, rows) := Collect(Going(sp0, [], None), zero, msgs);
            EndsAt(sp0, zero, msgs, end, at) && RowsAre(sp0, zero, msgs, at, rows)
  {
    assert msgs[0..] == msgs && msgs[..0] == [];
    at := CollectFrom(sp0, zero, msgs, 0, Going(sp0, [], None));
  }

  /** Where draining stops behind a refused callback, and what it returns there. */
  lemma {:induction false} DrainEnds(msgs: seq<Msg>) returns (at: nat)
    ensures at <= |msgs|
    ensures forall i :: 0 <= i < at ==>
              !msgs[i].ReadyForQuery? && !msgs[i].Other? && (msgs[i].RowDescription? ==> msgs[i].sp.Some?)
    ensures match DrainEnd(msgs)
            case CallbackError => at < |msgs| && msgs[at].ReadyForQuery?
            case UnexpectedMsg => at < |msgs| && msgs[at].Other?
            case PlanError => at < |msgs| && msgs[at].RowDescription? && msgs[at].sp.None?
            case WireError => at == |msgs|
            case _ => false
    decreases |msgs|
  {
    at := 0;
    if msgs != [] {
      var m := msgs[0];
      if !m.ReadyForQuery? && !m.Other? && (m.RowDescription? ==> m.sp.Some?) {
        at := DrainEnds(msgs[1..]);
        assert forall i :: 0 < i <= at ==> msgs[i] == msgs[1..][i - 1] || i == |msgs|;
        at := at + 1;
      }
    }
  }

  // ---- Where the cells of a row go ---------------------------------------------------------------

  /** No two columns go to one field. */
  predicate OwnFields(sp: StructPlan)
  {
    forall i, j :: 0 <= i < j < |sp| && !sp[i].skip && !sp[j].skip ==> sp[i].field != sp[j].field
  }

  /** Each cell goes through its column's setter into its column's field; other fields keep what they held. */
  ghost predicate CellsStored(sp: StructPlan, slot: Slot, cells: seq<Raw>, row: Slot)
    requires |cells| <= |sp| && Usable(sp, |slot|) && |row| == |slot|
  {
    && (forall i :: 0 <= i < |cells| && !sp[i].skip ==>
          Set(sp[i].oid, sp[i].target, slot[sp[i].field], cells[i]) == Some(row[sp[i].field]))
    && (forall f :: 0 <= f < |slot| && (forall i :: 0 <= i < |cells| && !sp[i].skip ==> sp[i].field != f) ==> row[f] == slot[f])
  }

  lemma {:induction false} StoredCells(sp: StructPlan, slot: Slot, cells: seq<Raw>)
    requires |cells| <= |sp| && Usable(sp, |slot|) && OwnFields(sp) && StoreAll(sp, slot, cells).Some?
    ensures CellsStored(sp, slot, cells, StoreAll(sp, slot, cells).value)
  {
    hide Set, Supported;
    if cells != [] {
      var n := |cells| - 1;
      StoredCells(sp, slot, cells[..n]);
      var before, row := StoreAll(sp, slot, cells[..n]).value, StoreAll(sp, slot, cells).value;
      assert Store(sp[n], before, cells[n]) == Some(row);
      forall f | 0 <= f < |slot| && (forall i :: 0 <= i < |cells| && !sp[i].skip ==> sp[i].field != f)
        ensures row[f] == slot[f]
      {
        assert before[f] == slot[f];
      }
    }
  }

  /** A row is filled exactly from the cells of its DataRow. */
  lemma FilledCells(sp: StructPlan, slot: Slot, body: bytes)
    requires Usable(sp, |slot|) && OwnFields(sp) && Fill(sp, slot, body).Some?
    ensures DecodeRow(body, |sp|).Some?
    ensures CellsStored(sp, slot, DecodeRow(body, |sp|).value, Fill(sp, slot, body).value)
  {
    hide StoreAll, CellsStored, DecodeRow;
    StoredCells(sp, slot, DecodeRow(body, |sp|).value);
  }
}
