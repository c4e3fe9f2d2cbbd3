/**
 The output side of a query (pgz/stream.go): a buffer in front of the caller's writer.
*/
module Stream {
  import opened Bytes

  /**
   What a writer holds: the bytes its destination has received, the bytes still buffered, the
   `committed` and `written` fields, and whether a write to the destination has failed.
  */
  datatype State = State(sink: bytes, buf: bytes, committed: bool, written: nat, broken: bool)

  const PRISTINE := State([], [], false, 0, false)

  ghost predicate StateValid(s: State)
  {
    && (s.committed <==> s.written > 0)
    && (!s.broken ==> s.written == |s.sink|)
  }

  /** What Flush may do: everything goes out, or the destination fails after some of it. */
  ghost predicate Flushed(s: State, t: State, ok: bool)
  {
    if ok
    then t == (if s.buf == [] then s else State(s.sink + s.buf, [], true, s.written + |s.buf|, s.broken))
    else t == s.(sink := t.sink, broken := true) && s.sink <= t.sink <= s.sink + s.buf
  }

  /** Both writers of the interface: `streaming` is flushingWriter, otherwise bufWriter. */
  class Writer {
    const streaming: bool
    const threshold: int
    const timed: bool
    const rowsHint: int
    var buf: bytes
    var capacity: nat
    var committed: bool
    var written: nat
    var grew: bool
    /** The caller's io.Writer. */
    var sink: bytes
    ghost var broken: bool

    ghost function Contents(): State
      reads this
    {
      State(sink, buf, committed, written, broken)
    }

    ghost predicate Valid()
      reads this
    {
      && |buf| <= capacity && StateValid(Contents())
      && (!streaming ==> sink == [] && !committed && !broken)
    }

    constructor (streaming: bool, threshold: int, timed: bool, rowsHint: int)
      ensures Valid() && Contents() == PRISTINE && this.streaming == streaming
    {
      this.streaming, this.threshold, this.timed, this.rowsHint := streaming, threshold, timed, rowsHint;
      buf, capacity, committed, written, grew, sink, broken := [], 0, false, 0, false, [], false;
    }

    /** The encoders append to the buffer they got from Buf and store the result here. */
    method SetBuf(p: bytes)
      requires Valid()
      modifies this
      ensures Valid() && Contents() == old(Contents()).(buf := p)
    {
      buf := p;
      if |buf| > capacity {
        var larger: nat :| |buf| <= larger;
        capacity := larger;
      }
    }

    /** Write and WriteByte. */
    method Append(p: bytes)
      requires Valid()
      modifies this
      ensures Valid() && Contents() == old(Contents()).(buf := old(buf) + p)
    {
      SetBuf(buf + p);
    }

    method Flush() returns (ok: bool)
      requires Valid() && !broken
      modifies this
      ensures Valid()
      ensures if streaming then Flushed(old(Contents()), Contents(), ok) else ok && Contents() == old(Contents())
    {
      ok := true;
      if !streaming {
        return;
      }
      if |buf| > 0 {
        var accepted: nat :| accepted <= |buf|;
        var fails := *;
        if fails {
          sink := sink + buf[..accepted];
          broken := true;
          return false;
        }
        sink := sink + buf;
        committed := true;
        written := written + |buf|;
        buf := [];
      }
    }

    /** `late` is the clock's answer; any answer is allowed. */
    method MaybeFlush() returns (ok: bool)
      requires Valid() && !broken
      modifies this
      ensures Valid()
      ensures streaming && |old(buf)| >= threshold ==> Flushed(old(Contents()), Contents(), ok)
      ensures (ok && Contents() == old(Contents())) || (streaming && Flushed(old(Contents()), Contents(), ok))
      ensures |old(buf)| < threshold && !timed ==> ok && Contents() == old(Contents())
    {
      ok := true;
      if !streaming {
        return;
      }
      if |buf| >= threshold {
        ok := Flush();
        return;
      }
      var late := *;
      if timed && |buf| > 0 && late {
        ok := Flush();
      }
    }

    predicate Committed()
      reads this
    {
      streaming && committed
    }

    function BytesOut(): (n: nat)
      requires |buf| <= capacity
      reads this
    {
      written + |buf|
    }

    /** Throws the buffer away, but only while nothing has reached the destination. */
    method Reset()
      requires Valid()
      modifies this
      ensures Valid()
      ensures Contents() == if old(committed) then old(Contents()) else old(Contents()).(buf := [])
      ensures !old(Committed()) && !old(broken) ==> Contents() == PRISTINE
    {
      if streaming && committed {
        return;
      }
      buf := [];
    }

    /** The capacity aimed at after a first row of this size: never beyond twice the threshold. */
    function Wanted(rowBytes: nat): int
    {
      var want := rowBytes * rowsHint + 256;
      if streaming && threshold * 2 > 0 && want > threshold * 2 then threshold * 2 else want
    }

    /** Growing the buffer copies it; the copy always fits. */
    method GrowForRow(rowBytes: nat)
      requires Valid()
      modifies this
      ensures Valid() && Contents() == old(Contents())
      ensures var grows := !old(grew) && rowsHint > 0 && rowBytes > 0;
              && grew == (old(grew) || grows)
              && capacity == if grows && old(capacity) < Wanted(rowBytes) then Wanted(rowBytes) else old(capacity)
    {
      if grew || rowsHint <= 0 || rowBytes == 0 {
        return;
      }
      grew := true;
      var want := rowBytes * rowsHint + 256;
      if streaming && threshold * 2 > 0 && want > threshold * 2 {
        want := threshold * 2;
      }
      if capacity >= want {
        return;
      }
      var kept := buf;
      var newBuf := new byte[want](i => if 0 <= i < |kept| then kept[i] else 0);
      buf := newBuf[..|kept|];
      capacity := want;
    }
  }
}
