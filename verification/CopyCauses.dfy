/**
 Why a COPY TO ends (pgz/copy_to.go), told from the messages alone: the rows a handler gets are the
 tuples of the byte stream, one for one, and every status has its cause in the stream or in the
 message behind it.
*/
module CopyCauses {
  import opened Bytes
  import opened CopyIn
  import opened CopyOut
  import Rows

  // ---- Tuples on the wire --------------------------------------------------------------------

  /** A value the accessor of this type takes: NULL, or of the right length. */
  predicate FitsKind(kind: Kind, raw: Option<bytes>)
  {
    raw.Some? ==> |raw.value| < TWO_31 && (Width(kind).Some? ==> |raw.value| == Width(kind).value)
  }

  function FieldOf(kind: Kind, raw: Option<bytes>): Field
    requires FitsKind(kind, raw)
  {
    match raw
    case None => Null
    case Some(b) => Decode(kind, b)
  }

  predicate FitsAll(kinds: seq<Kind>, raws: seq<Option<bytes>>)
  {
    |raws| == |kinds| && forall i :: 0 <= i < |kinds| ==> FitsKind(kinds[i], raws[i])
  }

  function FieldsOf(kinds: seq<Kind>, raws: seq<Option<bytes>>): (r: Tuple)
    requires FitsAll(kinds, raws)
    ensures |r| == |kinds| && forall i :: 0 <= i < |r| ==> r[i] == FieldOf(kinds[i], raws[i])
  {
    seq(|kinds|, i requires 0 <= i < |kinds| => FieldOf(kinds[i], raws[i]))
  }

  /** An accessor succeeds exactly on a value of its type, and consumes its bytes. */
  lemma AccessOnly(kind: Kind, s: bytes) returns (raw: Option<bytes>)
    requires !Access(kind, Cursor(s, false)).1.failed
    ensures var (f, c) := Access(kind, Cursor(s, false));
            FitsKind(kind, raw) && s == Rows.CellBytes(raw) + c.body && f == FieldOf(kind, raw)
  {
    hide ReadI32, I32, Decode;
    var n := ReadI32(s[..4]);
    I32OfRead(s[..4]);
    assert s == s[..4] + s[4..];
    if n == -1 {
      raw := None;
    } else {
      var b := s[4..][..n];
      raw := Some(b);
      assert s[4..] == b + s[4..][n..];
      Assoc(s[..4], b, s[4..][n..]);
    }
  }

  lemma AccessRaw(kind: Kind, raw: Option<bytes>, rest: bytes)
    requires FitsKind(kind, raw)
    ensures Access(kind, Cursor(Rows.CellBytes(raw) + rest, false)) == (FieldOf(kind, raw), Cursor(rest, false))
  {
    hide ReadI32, I32, Decode;
    var v := if raw.Some? then raw.value else [];
    var n := if raw.Some? then |v| else -1;
    ReadI32RoundTrip(n);
    var s := Rows.CellBytes(raw) + rest;
    assert s[..4] == I32(n) && s[4..] == v + rest;
    if raw.Some? {
      assert (v + rest)[..n] == v && (v + rest)[n..] == rest;
    } else {
      assert v + rest == rest;
    }
  }

  lemma CellsMore(raws: seq<Option<bytes>>, raw: Option<bytes>)
    ensures Rows.CellsBytes(raws + [raw]) == Rows.CellsBytes(raws) + Rows.CellBytes(raw)
  {
    hide Rows.CellBytes;
    assert (raws + [raw])[..|raws|] == raws;
  }

  /** One more accessor on what the ones before it have left. */
  lemma AccessAllLast(kinds: seq<Kind>, c: Cursor)
    requires kinds != []
    ensures var n := |kinds| - 1;
            var (fields, c1) := AccessAll(kinds[..n], c);
            var (f, c2) := Access(kinds[n], c1);
            AccessAll(kinds, c) == (fields + [f], c2) && (c1.failed ==> c2.failed)
  {
  }

  lemma {:induction false} AccessAllOnly(kinds: seq<Kind>, s: bytes) returns (raws: seq<Option<bytes>>)
    requires !AccessAll(kinds, Cursor(s, false)).1.failed
    ensures var (fields, c) := AccessAll(kinds, Cursor(s, false));
            FitsAll(kinds, raws) && s == Rows.CellsBytes(raws) + c.body && fields == FieldsOf(kinds, raws)
  {
    hide Access, Rows.CellBytes, FieldOf, FitsKind;
    if kinds == [] {
      raws := [];
      assert Rows.CellsBytes([]) + s == s;
    } else {
      var n := |kinds| - 1;
      AccessAllLast(kinds, Cursor(s, false));
      var c1 := AccessAll(kinds[..n], Cursor(s, false)).1;
      hide AccessAll;
      raws := AccessAllOnly(kinds[..n], s);
      var raw := AccessOnly(kinds[n], c1.body);
      var c2 := Access(kinds[n], c1).1;
      CellsMore(raws, raw);
      Assoc(Rows.CellsBytes(raws), Rows.CellBytes(raw), c2.body);
      raws := raws + [raw];
    }
  }

  lemma {:induction false} AccessAllRaw(kinds: seq<Kind>, raws: seq<Option<bytes>>, rest: bytes)
    requires FitsAll(kinds, raws)
    ensures AccessAll(kinds, Cursor(Rows.CellsBytes(raws) + rest, false)) == (FieldsOf(kinds, raws), Cursor(rest, false))
    decreases |kinds|
  {
    hide Access, Rows.CellBytes, FieldOf, FitsKind;
    if kinds == [] {
      assert Rows.CellsBytes(raws) + rest == rest;
    } else {
      var n := |kinds| - 1;
      var front, last := raws[..n], raws[n];
      assert raws == front + [last];
      CellsMore(front, last);
      var s := Rows.CellsBytes(raws) + rest;
      Assoc(Rows.CellsBytes(front), Rows.CellBytes(last), rest);
      AccessAllLast(kinds, Cursor(s, false));
      hide AccessAll, Rows.CellsBytes;
      AccessAllRaw(kinds[..n], front, Rows.CellBytes(last) + rest);
      AccessRaw(kinds[n], last, rest);
      assert FieldsOf(kinds, raws) == FieldsOf(kinds[..n], front) + [FieldOf(kinds[n], last)];
    }
  }

  /** The bytes start with one value of each type. */
  ghost predicate StartsWithTuple(kinds: seq<Kind>, s: bytes)
  {
    exists raws :: FitsAll(kinds, raws) && Rows.CellsBytes(raws) <= s
  }

  /** The handler's reads fail if and only if the bytes do not start with a tuple of the right types. */
  lemma ReadsFailIff(kinds: seq<Kind>, s: bytes)
    ensures AccessAll(kinds, Cursor(s, false)).1.failed <==> !StartsWithTuple(kinds, s)
  {
    hide AccessAll, FitsAll, Rows.CellsBytes;
    if !AccessAll(kinds, Cursor(s, false)).1.failed {
      var raws := AccessAllOnly(kinds, s);
      assert Rows.CellsBytes(raws) <= s;
    }
    if StartsWithTuple(kinds, s) {
      var raws :| FitsAll(kinds, raws) && Rows.CellsBytes(raws) <= s;
      var k := |Rows.CellsBytes(raws)|;
      assert s == Rows.CellsBytes(raws) + s[k..];
      AccessAllRaw(kinds, raws, s[k..]);
    }
  }

  // ---- One message --------------------------------------------------------------------------------

  datatype RawItem = RawRow(raws: seq<Option<bytes>>) | RawTrailer

  function RawBytes(item: RawItem): bytes
  {
    match item
    case RawRow(raws) => I16(|raws|) + Rows.CellsBytes(raws)
    case RawTrailer => TRAILER
  }

  function RawsBytes(items: seq<RawItem>): bytes
  {
    if items == [] then [] else RawBytes(items[0]) + RawsBytes(items[1..])
  }

  predicate FitItems(kinds: seq<Kind>, items: seq<RawItem>)
  {
    forall i :: 0 <= i < |items| && items[i].RawRow? ==> FitsAll(kinds, items[i].raws)
  }

  function Tuples(kinds: seq<Kind>, items: seq<RawItem>): seq<Tuple>
    requires FitItems(kinds, items)
  {
    if items == [] then []
    else (if items[0].RawRow? then [FieldsOf(kinds, items[0].raws)] else []) + Tuples(kinds, items[1..])
  }

  /** What stands at the place where the tuples of a message could not be read on. */
  ghost predicate Stuck(end: Option<Status>, rest: bytes, kinds: seq<Kind>, stop: Stop, call: nat)
  {
    match end
    case None => rest == []
    case Some(Truncated) => |rest| == 1
    case Some(WrongCount) => |rest| >= 2 && ReadI16(rest[..2]) != -1 && ReadI16(rest[..2]) != |kinds|
    case Some(Stopped) => stop == EndsAt(call) && |rest| >= 2 && ReadI16(rest[..2]) == |kinds|
    case Some(HandlerFailed) => stop == FailsAt(call) && |rest| >= 2 && ReadI16(rest[..2]) == |kinds|
    case Some(BadField) => |rest| >= 2 && ReadI16(rest[..2]) == |kinds| && !StartsWithTuple(kinds, rest[2..])
    case _ => false
  }

  lemma TrailerIs(s: bytes)
    requires |s| >= 2 && ReadI16(s[..2]) == -1
    ensures s == TRAILER + s[2..]
  {
    hide I16;
    I16OfRead(s[..2]);
    assert I16(-1) == TRAILER by { MinusOne(); }
    assert s == s[..2] + s[2..];
  }

  lemma MinusOne()
    ensures I16(-1) == TRAILER
  {
    assert ToBE(0xFFFF, 2) == ToBE(0xFF, 1) + [0xFF];
    assert ToBE(0xFF, 1) == ToBE(0, 0) + [0xFF];
  }

  lemma ConsItem(kinds: seq<Kind>, item: RawItem, items: seq<RawItem>)
    requires FitItems(kinds, items) && (item.RawRow? ==> FitsAll(kinds, item.raws))
    ensures var all := [item] + items;
      && FitItems(kinds, all) && RawsBytes(all) == RawBytes(item) + RawsBytes(items)
      && Tuples(kinds, all) == (if item.RawRow? then [FieldsOf(kinds, item.raws)] else []) + Tuples(kinds, items)
  {
    hide RawBytes, FitsAll, FieldsOf;
    assert ([item] + items)[1..] == items;
  }

  /**
   The tuples of one message: those before the place where it stops, each decoded and handed over;
   and why it stops there.
  */
  lemma {:induction false} BodyExact(body: bytes, kinds: seq<Kind>, rows: seq<Tuple>, stop: Stop)
    returns (items: seq<RawItem>, rest: bytes)
    ensures FitItems(kinds, items) && body == RawsBytes(items) + rest
    ensures var (all, end) := ScanBody(body, kinds, rows, stop);
            all == rows + Tuples(kinds, items) && Stuck(end, rest, kinds, stop, |all|)
    decreases |body|
  {
    hide AccessAll, FitsAll, FieldsOf, ReadI16, I16, Rows.CellsBytes, StartsWithTuple;
    items, rest := [], body;
    assert RawsBytes([]) + body == body && rows + Tuples(kinds, []) == rows;
    if |body| >= 2 {
      var n := ReadI16(body[..2]);
      if n == -1 {
        TrailerIs(body);
        items, rest := BodyExact(body[2..], kinds, rows, stop);
        ConsItem(kinds, RawTrailer, items);
        Assoc(TRAILER, RawsBytes(items), rest);
        assert [] + Tuples(kinds, items) == Tuples(kinds, items);
        items := [RawTrailer] + items;
      } else if n == |kinds| {
        ReadsFailIff(kinds, body[2..]);
        var (fields, c) := AccessAll(kinds, Cursor(body[2..], false));
        if StopStatus(stop, |rows|).None? && !c.failed {
          items, rest := BodyRow(body, kinds, rows, stop);
        }
      }
    }
  }

  lemma {:induction false} BodyRow(body: bytes, kinds: seq<Kind>, rows: seq<Tuple>, stop: Stop)
    returns (items: seq<RawItem>, rest: bytes)
    requires |body| >= 2 && ReadI16(body[..2]) == |kinds| && StopStatus(stop, |rows|).None?
    requires !AccessAll(kinds, Cursor(body[2..], false)).1.failed
    ensures FitItems(kinds, items) && body == RawsBytes(items) + rest
    ensures var (all, end) := ScanBody(body, kinds, rows, stop);
            all == rows + Tuples(kinds, items) && Stuck(end, rest, kinds, stop, |all|)
    decreases |body|, 0
  {
    hide AccessAll, FitsAll, FieldsOf, ReadI16, I16, Rows.CellsBytes, StartsWithTuple, Stuck;
    var (fields, c) := AccessAll(kinds, Cursor(body[2..], false));
    var raws := AccessAllOnly(kinds, body[2..]);
    assert |raws| == |kinds| by { FitsLength(kinds, raws); }
    I16OfRead(body[..2]);
    var head := I16(|raws|);
    assert body == head + body[2..];
    Assoc(head, Rows.CellsBytes(raws), c.body);
    items, rest := BodyExact(c.body, kinds, rows + [fields], stop);
    ConsItem(kinds, RawRow(raws), items);
    Assoc(RawBytes(RawRow(raws)), RawsBytes(items), rest);
    assert rows + ([fields] + Tuples(kinds, items)) == (rows + [fields]) + Tuples(kinds, items);
    items := [RawRow(raws)] + items;
  }

  lemma FitsLength(kinds: seq<Kind>, raws: seq<Option<bytes>>)
    requires FitsAll(kinds, raws)
    ensures |raws| == |kinds|
  {
  }

  // ---- The whole answer ----------------------------------------------------------------------------

  predicate Passes(m: Msg) { m.CopyData? || m.CopyDone? || m.Async? }

  /** The first message that is neither data nor noise. */
  function FirstEnd(msgs: seq<Msg>): (e: nat)
    ensures e <= |msgs| && forall i :: 0 <= i < e ==> Passes(msgs[i])
    ensures e < |msgs| ==> !Passes(msgs[e])
    decreases |msgs|
  {
    if msgs == [] || !Passes(msgs[0]) then 0 else 1 + FirstEnd(msgs[1..])
  }

  /** All data of these messages. */
  function Data(msgs: seq<Msg>): bytes
    decreases |msgs|
  {
    if msgs == [] then [] else (if msgs[0].CopyData? then msgs[0].body else []) + Data(msgs[1..])
  }

  /** What is left of the data when the first `k` bytes are gone. */
  function Behind(data: bytes, k: nat): bytes { if |data| < k then [] else data[k..] }

  /** A status that is found in the data. */
  predicate InData(status: Status)
  {
    || status.WrongMagic? || status.Truncated? || status.WrongCount? || status.BadField? || status.Stopped?
    || status.HandlerFailed?
  }

  /** The status that message `e`, the first behind the data, calls for. */
  function StatusAt(msgs: seq<Msg>, e: nat): Status
    requires e <= |msgs|
  {
    if e == |msgs| then WireError
    else
      match msgs[e]
      case CommandComplete => if exists j :: e < j < |msgs| && msgs[j].ReadyForQuery? then Completed else WireError
      case ErrorResponse => ServerFailed
      case _ => Unexpected
  }

  /** Nothing was wrong with the first `at` messages, and the data of the next one is where it stopped. */
  ghost predicate StopsIn(msgs: seq<Msg>, kinds: seq<Kind>, k: nat, status: Status, stop: Stop, call: nat, at: nat,
                          items: seq<RawItem>, rest: bytes)
  {
    && at < FirstEnd(msgs) && msgs[at].CopyData? && FitItems(kinds, items)
    && Behind(Data(msgs[..at + 1]), k) == RawsBytes(items) + rest && Stuck(Some(status), rest, kinds, stop, call)
  }

  lemma DataCons(m: Msg, msgs: seq<Msg>, n: nat)
    requires n <= |msgs|
    ensures Data(([m] + msgs)[..n + 1]) == (if m.CopyData? then m.body else []) + Data(msgs[..n])
  {
    assert ([m] + msgs)[..n + 1] == [m] + msgs[..n];
    assert ([m] + msgs[..n])[1..] == msgs[..n];
  }

  lemma BehindMore(a: bytes, b: bytes, k: nat)
    ensures |a| <= k ==> Behind(a + b, k) == Behind(b, k - |a|)
    ensures |a| >= k ==> Behind(a + b, k) == a[k..] + b
  {
  }

  lemma StatusCons(m: Msg, msgs: seq<Msg>, e: nat)
    requires e <= |msgs|
    ensures StatusAt([m] + msgs, e + 1) == StatusAt(msgs, e)
  {
    var all := [m] + msgs;
    if e < |msgs| && msgs[e].CommandComplete? {
      if exists j :: e < j < |msgs| && msgs[j].ReadyForQuery? {
        var j :| e < j < |msgs| && msgs[j].ReadyForQuery?;
        assert all[j + 1].ReadyForQuery?;
      }
      if exists j :: e + 1 < j < |all| && all[j].ReadyForQuery? {
        var j :| e + 1 < j < |all| && all[j].ReadyForQuery?;
        assert msgs[j - 1].ReadyForQuery?;
      }
    }
  }

  lemma {:induction false} ItemsMore(kinds: seq<Kind>, a: seq<RawItem>, b: seq<RawItem>)
    requires FitItems(kinds, a) && FitItems(kinds, b)
    ensures FitItems(kinds, a + b) && RawsBytes(a + b) == RawsBytes(a) + RawsBytes(b)
    ensures Tuples(kinds, a + b) == Tuples(kinds, a) + Tuples(kinds, b)
    decreases |a|
  {
    if a == [] {
      assert a + b == b && [] + RawsBytes(b) == RawsBytes(b) && [] + Tuples(kinds, b) == Tuples(kinds, b);
    } else {
      hide RawBytes, FitsAll, FieldsOf, RawsBytes, Tuples;
      assert a == [a[0]] + a[1..] && a + b == [a[0]] + (a[1..] + b);
      assert forall i :: 0 <= i < |a[1..]| ==> a[1..][i] == a[i + 1];
      ItemsMore(kinds, a[1..], b);
      ConsItem(kinds, a[0], a[1..]);
      ConsItem(kinds, a[0], a[1..] + b);
      Assoc(RawBytes(a[0]), RawsBytes(a[1..]), RawsBytes(b));
    }
  }

  /** The signature in the first message with any data is wrong. */
  predicate WrongStart(msgs: seq<Msg>, cursor: nat, at: nat)
  {
    && cursor == 0 && at < FirstEnd(msgs) && msgs[at].CopyData? && Data(msgs[..at]) == []
    && |msgs[at].body| >= 11 && msgs[at].body[..11] != MAGIC
  }

  /** How the rows and the status come from the messages; `k` bytes of header are still to come. */
  ghost predicate Explained(msgs: seq<Msg>, kinds: seq<Kind>, cursor: nat, rows: seq<Tuple>, stop: Stop,
                            result: (seq<Tuple>, Status), at: nat, items: seq<RawItem>, rest: bytes)
    requires cursor <= HEADER_LEN
  {
    var (all, status) := result;
    && FitItems(kinds, items) && all == rows + Tuples(kinds, items)
    && (if !InData(status) then
          status == StatusAt(msgs, FirstEnd(msgs))
          && Behind(Data(msgs[..FirstEnd(msgs)]), HEADER_LEN - cursor) == RawsBytes(items)
        else if status.WrongMagic? then WrongStart(msgs, cursor, at) && items == []
        else StopsIn(msgs, kinds, HEADER_LEN - cursor, status, stop, |all|, at, items, rest))
  }

  lemma FirstEndCons(m: Msg, msgs: seq<Msg>)
    ensures FirstEnd([m] + msgs) == if Passes(m) then 1 + FirstEnd(msgs) else 0
  {
    assert ([m] + msgs)[1..] == msgs;
  }

  /** A message that ends the answer at once. */
  lemma EndsHere(msgs: seq<Msg>, kinds: seq<Kind>, cursor: nat, rows: seq<Tuple>, stop: Stop)
    requires cursor <= HEADER_LEN && (msgs == [] || !Passes(msgs[0]))
    ensures Explained(msgs, kinds, cursor, rows, stop, ScanMsgs(msgs, kinds, cursor, rows, stop), 0, [], [])
  {
    assert msgs[..0] == [] && rows + [] == rows;
    if msgs != [] && msgs[0].CommandComplete? {
      if !NoReady(msgs[1..]) {
        var i :| 0 <= i < |msgs[1..]| && msgs[1..][i].ReadyForQuery?;
        assert msgs[i + 1].ReadyForQuery?;
      }
      if exists j :: 0 < j < |msgs| && msgs[j].ReadyForQuery? {
        var j :| 0 < j < |msgs| && msgs[j].ReadyForQuery?;
        assert msgs[1..][j - 1].ReadyForQuery?;
      }
    }
  }

  /** A message without data, or with header bytes only, in front of an explained answer. */
  lemma NoTuplesHere(m: Msg, msgs: seq<Msg>, kinds: seq<Kind>, cursor: nat, cursor': nat, rows: seq<Tuple>, stop: Stop,
                     result: (seq<Tuple>, Status), at: nat, items: seq<RawItem>, rest: bytes)
    requires Passes(m) && cursor <= cursor' <= HEADER_LEN
    requires cursor' == cursor + (if m.CopyData? then |m.body| else 0)
    requires Explained(msgs, kinds, cursor', rows, stop, result, at, items, rest)
    ensures Explained([m] + msgs, kinds, cursor, rows, stop, result, at + 1, items, rest)
  {
    hide Stuck, FitItems, Tuples, RawsBytes, Behind, StatusAt, FirstEnd, Data;
    var own := if m.CopyData? then m.body else [];
    var e := FirstEnd(msgs);
    FirstEndCons(m, msgs);
    StatusCons(m, msgs, e);
    DataCons(m, msgs, e);
    BehindMore(own, Data(msgs[..e]), HEADER_LEN - cursor);
    if InData(result.1) && at < e {
      DataCons(m, msgs, at);
      DataCons(m, msgs, at + 1);
      BehindMore(own, Data(msgs[..at + 1]), HEADER_LEN - cursor);
      assert ([m] + msgs)[at + 1] == msgs[at];
      assert [] + Data(msgs[..at]) == Data(msgs[..at]);
    }
  }

  /** A message that holds the rest of the header and tuples. */
  lemma TuplesHere(m: Msg, msgs: seq<Msg>, kinds: seq<Kind>, cursor: nat, rows: seq<Tuple>, stop: Stop)
    returns (at: nat, items: seq<RawItem>, rest: bytes)
    requires m.CopyData? && cursor <= HEADER_LEN && |m.body| >= HEADER_LEN - cursor
    ensures Explained([m] + msgs, kinds, cursor, rows, stop,
                      ScanTuples(m.body[HEADER_LEN - cursor..], msgs, kinds, rows, stop), at, items, rest)
    decreases |msgs|, 1
  {
    hide Stuck, FitItems, Tuples, RawsBytes, Behind, StatusAt, FirstEnd, Data, ScanBody;
    var k := HEADER_LEN - cursor;
    var here := m.body[k..];
    var (rows1, end) := ScanBody(here, kinds, rows, stop);
    items, rest := BodyExact(here, kinds, rows, stop);
    at := 0;
    FirstEndCons(m, msgs);
    DataCons(m, msgs, 0);
    assert Data(msgs[..0]) == [] by { NoData(msgs); }
    BehindMore(m.body, [], k);
    if end.Some? {
      StuckInData(end, rest, kinds, stop, |rows1|);
      assert here + [] == here;
    } else {
      assert rest == [] by { StuckInData(end, rest, kinds, stop, |rows1|); }
      assert RawsBytes(items) + [] == RawsBytes(items);
      var later, result;
      result := ScanMsgs(msgs, kinds, HEADER_LEN, rows1, stop);
      at, later, rest := ScanExact(msgs, kinds, HEADER_LEN, rows1, stop);
      MoreHere(m, msgs, kinds, cursor, rows, stop, result, at, items, later, rest);
      at, items := at + 1, items + later;
    }
  }

  lemma NoData(msgs: seq<Msg>)
    ensures Data(msgs[..0]) == []
  {
  }

  lemma StuckInData(end: Option<Status>, rest: bytes, kinds: seq<Kind>, stop: Stop, call: nat)
    requires Stuck(end, rest, kinds, stop, call)
    ensures if end.None? then rest == [] else InData(end.value) && !end.value.WrongMagic?
  {
  }

  /** The tuples of one message, then those of the later ones. */
  lemma MoreHere(m: Msg, msgs: seq<Msg>, kinds: seq<Kind>, cursor: nat, rows: seq<Tuple>, stop: Stop,
                 result: (seq<Tuple>, Status), at: nat, items: seq<RawItem>, later: seq<RawItem>, rest: bytes)
    requires m.CopyData? && cursor <= HEADER_LEN && |m.body| >= HEADER_LEN - cursor && FitItems(kinds, items)
    requires m.body[HEADER_LEN - cursor..] == RawsBytes(items)
    requires Explained(msgs, kinds, HEADER_LEN, rows + Tuples(kinds, items), stop, result, at, later, rest)
    ensures Explained([m] + msgs, kinds, cursor, rows, stop, result, at + 1, items + later, rest)
  {
    hide Stuck, FitItems, Tuples, RawsBytes, StatusAt, FirstEnd, Data;
    var k := HEADER_LEN - cursor;
    var e := FirstEnd(msgs);
    ItemsMore(kinds, items, later);
    assert (rows + Tuples(kinds, items)) + Tuples(kinds, later) == rows + (Tuples(kinds, items) + Tuples(kinds, later));
    FirstEndCons(m, msgs);
    StatusCons(m, msgs, e);
    DataCons(m, msgs, e);
    BehindMore(m.body, Data(msgs[..e]), k);
    if InData(result.1) && at < e {
      DataCons(m, msgs, at + 1);
      BehindMore(m.body, Data(msgs[..at + 1]), k);
      assert ([m] + msgs)[at + 1] == msgs[at];
      Assoc(RawsBytes(items), RawsBytes(later), rest);
    }
  }

  /**
   The rows a handler gets are the tuples of the data behind the 19 header bytes, one for one and in
   order. If the data holds a reason to stop, the status is that reason, found right behind those
   tuples; otherwise it is what the first message behind the data says, and no error response is
   ever taken for the end of a complete COPY.
  */
  lemma {:induction false} ScanExact(msgs: seq<Msg>, kinds: seq<Kind>, cursor: nat, rows: seq<Tuple>, stop: Stop)
    returns (at: nat, items: seq<RawItem>, rest: bytes)
    requires cursor <= HEADER_LEN
    ensures Explained(msgs, kinds, cursor, rows, stop, ScanMsgs(msgs, kinds, cursor, rows, stop), at, items, rest)
    decreases |msgs|, 0
  {
    hide Explained, ScanTuples, FirstEnd;
    if msgs == [] || !Passes(msgs[0]) {
      EndsHere(msgs, kinds, cursor, rows, stop);
      at, items, rest := 0, [], [];
    } else {
      var m, later := msgs[0], msgs[1..];
      assert msgs == [m] + later;
      if m.CopyData? && |m.body| >= HEADER_LEN - cursor {
        if cursor == 0 && m.body[..11] != MAGIC {
          WrongHere(m, later, kinds, rows, stop);
          at, items, rest := 0, [], [];
        } else {
          assert m.body[0..] == m.body;
          at, items, rest := TuplesHere(m, later, kinds, cursor, rows, stop);
        }
      } else if m.CopyData? && cursor == 0 && |m.body| >= 11 && m.body[..11] != MAGIC {
        WrongHere(m, later, kinds, rows, stop);
        at, items, rest := 0, [], [];
      } else {
        var cursor' := cursor + (if m.CopyData? then |m.body| else 0);
        at, items, rest := ScanExact(later, kinds, cursor', rows, stop);
        NoTuplesHere(m, later, kinds, cursor, cursor', rows, stop, ScanMsgs(later, kinds, cursor', rows, stop), at, items, rest);
        at := at + 1;
      }
    }
  }

  lemma WrongHere(m: Msg, msgs: seq<Msg>, kinds: seq<Kind>, rows: seq<Tuple>, stop: Stop)
    requires m.CopyData? && |m.body| >= 11 && m.body[..11] != MAGIC
    ensures Explained([m] + msgs, kinds, 0, rows, stop, (rows, WrongMagic), 0, [], [])
  {
    FirstEndCons(m, msgs);
    assert ([m] + msgs)[..0] == [] && rows + [] == rows;
  }

  /** The call at which the handler wants no more rows, if there is one. */
  function LastCall(stop: Stop): Option<nat>
  {
    match stop
    case EndsAt(n) => Some(n)
    case FailsAt(n) => Some(n)
    case Never => None
  }

  predicate Obeyed(stop: Stop, rows: seq<Tuple>) { LastCall(stop).Some? ==> |rows| <= LastCall(stop).value }

  lemma {:induction false} BodyObeys(body: bytes, kinds: seq<Kind>, rows: seq<Tuple>, stop: Stop)
    requires Obeyed(stop, rows)
    ensures Obeyed(stop, ScanBody(body, kinds, rows, stop).0)
    decreases |body|
  {
    hide AccessAll, ReadI16;
    if |body| >= 2 {
      var n := ReadI16(body[..2]);
      if n == -1 {
        BodyObeys(body[2..], kinds, rows, stop);
      } else if n == |kinds| && StopStatus(stop, |rows|).None? {
        var (fields, c) := AccessAll(kinds, Cursor(body[2..], false));
        if !c.failed {
          BodyObeys(c.body, kinds, rows + [fields], stop);
        }
      }
    }
  }

  /** No row is counted behind the call that ended or failed. */
  lemma {:induction false} HandlerObeyed(msgs: seq<Msg>, kinds: seq<Kind>, cursor: nat, rows: seq<Tuple>, stop: Stop)
    requires cursor <= HEADER_LEN && Obeyed(stop, rows)
    ensures Obeyed(stop, ScanMsgs(msgs, kinds, cursor, rows, stop).0)
    decreases |msgs|, 0
  {
    hide ScanBody, Obeyed;
    if msgs != [] {
      match msgs[0]
      case CopyData(body) =>
        if cursor == HEADER_LEN {
          TuplesObey(body, msgs[1..], kinds, rows, stop);
        } else {
          match ConsumePGCopyHeader(body, cursor)
          case BadMagic =>
          case Partial(n) => HandlerObeyed(msgs[1..], kinds, n, rows, stop);
          case Done(rest) => TuplesObey(rest, msgs[1..], kinds, rows, stop);
        }
      case CopyDone => HandlerObeyed(msgs[1..], kinds, cursor, rows, stop);
      case Async => HandlerObeyed(msgs[1..], kinds, cursor, rows, stop);
      case _ =>
    }
  }

  lemma {:induction false} TuplesObey(body: bytes, msgs: seq<Msg>, kinds: seq<Kind>, rows: seq<Tuple>, stop: Stop)
    requires Obeyed(stop, rows)
    ensures Obeyed(stop, ScanTuples(body, msgs, kinds, rows, stop).0)
    decreases |msgs|, 1
  {
    hide ScanBody, Obeyed, ScanMsgs;
    BodyObeys(body, kinds, rows, stop);
    HandlerObeyed(msgs, kinds, HEADER_LEN, ScanBody(body, kinds, rows, stop).0, stop);
  }

  /**
   A COPY counts as complete only if a CommandComplete ended the data, with ReadyForQuery behind it
   and no error response before it; it counts as refused by the server exactly if an error response
   ended the data. A handler that ends or fails at call n gets no row behind it.
  */
  lemma CopyEnds(msgs: seq<Msg>, kinds: seq<Kind>, stop: Stop)
    ensures var status, e := ScanMsgs(msgs, kinds, 0, [], stop).1, FirstEnd(msgs);
      && (status.Completed? <==>
            !InData(status) && e < |msgs| && msgs[e].CommandComplete? && exists j :: e < j < |msgs| && msgs[j].ReadyForQuery?)
      && (status.ServerFailed? <==> !InData(status) && e < |msgs| && msgs[e].ErrorResponse?)
      && (status.Unexpected? <==> !InData(status) && e < |msgs| && (msgs[e].ReadyForQuery? || msgs[e].Other?))
      && (InData(status) ==> exists i :: 0 <= i < e && msgs[i].CopyData?)
      && (forall i :: 0 <= i < e ==> !msgs[i].ErrorResponse? && !msgs[i].CommandComplete?)
    ensures forall n: nat :: stop == EndsAt(n) || stop == FailsAt(n) ==> |ScanMsgs(msgs, kinds, 0, [], stop).0| <= n
  {
    hide ScanMsgs, Stuck, FitItems, Tuples, RawsBytes, Behind, Data;
    HandlerObeyed(msgs, kinds, 0, [], stop);
    var at, items, rest := ScanExact(msgs, kinds, 0, [], stop);
  }
}
