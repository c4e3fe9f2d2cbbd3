/**
 Message framing (internal/wire/conn.go): lengths patched in place when writing; when reading, a
 buffered peek for messages that fit the buffer and a copy for those that do not.
*/
module Wire {
  import opened Bytes

  const MAX_MSG := 0x1000_0000

  datatype Message = Message(t: byte, body: bytes)

  /** Type byte, length of the rest, body. */
  function Frame(m: Message): bytes
  {
    [m.t] + (ToBE((|m.body| + 4) % TWO_32, 4) + m.body)
  }

  function Frames(ms: seq<Message>): bytes
  {
    if ms == [] then [] else Frames(ms[..|ms| - 1]) + Frame(ms[|ms| - 1])
  }

  // ---- Writing -----------------------------------------------------------------------

  /** Four bytes overwritten in place. */
  function Patched(buf: bytes, at: nat, len: bytes): bytes
    requires at + 4 <= |buf| && |len| == 4
  {
    buf[at := len[0]][at + 1 := len[1]][at + 2 := len[2]][at + 3 := len[3]]
  }

  lemma PatchedIs(buf: bytes, at: nat, len: bytes)
    requires at + 4 <= |buf| && |len| == 4
    ensures Patched(buf, at, len) == buf[..at] + (len + buf[at + 4..])
  {
  }

  lemma PatchedFrame(buf: bytes, start: nat)
    requires start + 5 <= |buf|
    ensures Patched(buf, start + 1, ToBE((|buf| - start - 1) % TWO_32, 4))
         == buf[..start] + Frame(Message(buf[start], buf[start + 5..]))
  {
    hide Patched, ToBE;
    var len := ToBE((|buf| - start - 1) % TWO_32, 4);
    PatchedIs(buf, start + 1, len);
    assert buf[..start + 1] == buf[..start] + [buf[start]];
    assert |buf[start + 5..]| + 4 == |buf| - start - 1;
  }

  class Conn {
    var writeBuf: bytes
    /** What the network has accepted. */
    var sent: bytes

    constructor ()
      ensures writeBuf == [] && sent == []
    {
      writeBuf, sent := [], [];
    }

    method Begin(t: byte) returns (b: Builder)
      modifies `writeBuf
      ensures fresh(b) && b.c == this && !b.noType && b.startOff == |old(writeBuf)|
      ensures writeBuf == old(writeBuf) + [t, 0, 0, 0, 0]
    {
      b := new Builder(this, false, |writeBuf|);
      writeBuf := writeBuf + [t] + [0, 0, 0, 0];
    }

    method BeginNoType() returns (b: Builder)
      modifies `writeBuf
      ensures fresh(b) && b.c == this && b.noType && b.startOff == |old(writeBuf)|
      ensures writeBuf == old(writeBuf) + [0, 0, 0, 0]
    {
      b := new Builder(this, true, |writeBuf|);
      writeBuf := writeBuf + [0, 0, 0, 0];
    }

    /** The network may take the bytes in any number of pieces, or fail after some of them. */
    method WriteRaw(p0: bytes) returns (ok: bool)
      modifies `sent
      ensures ok ==> sent == old(sent) + p0
      ensures old(sent) <= sent <= old(sent) + p0
    {
      var p := p0;
      ok := true;
      while |p| > 0
        invariant sent + p == old(sent) + p0 && old(sent) <= sent
      {
        var n: nat :| n <= |p|;
        var fails := *;
        sent := sent + p[..n];
        p := p[n..];
        if fails || n == 0 {
          return false;
        }
      }
    }

    method Flush() returns (ok: bool)
      modifies `writeBuf, `sent
      ensures writeBuf == [] && old(sent) <= sent
      ensures ok ==> sent == old(sent) + old(writeBuf)
    {
      if |writeBuf| == 0 {
        return true;
      }
      ok := WriteRaw(writeBuf);
      writeBuf := [];
    }
  }

  class Builder {
    const c: Conn
    const noType: bool
    const startOff: nat

    constructor (c: Conn, noType: bool, startOff: nat)
      ensures this.c == c && this.noType == noType && this.startOff == startOff
    {
      this.c, this.noType, this.startOff := c, noType, startOff;
    }

    method Bytes(p: bytes)
      modifies c`writeBuf
      ensures c.writeBuf == old(c.writeBuf) + p
    {
      c.writeBuf := c.writeBuf + p;
    }

    method Int16(v: int)
      modifies c`writeBuf
      ensures c.writeBuf == old(c.writeBuf) + I16(v)
    {
      c.writeBuf := c.writeBuf + I16(v);
    }

    method Int32(v: int)
      modifies c`writeBuf
      ensures c.writeBuf == old(c.writeBuf) + I32(v)
    {
      c.writeBuf := c.writeBuf + I32(v);
    }

    /**
     Everything appended since Begin, inner messages included, becomes the body; what stood in
     the buffer before is untouched.
    */
    method Finish()
      requires startOff + (if noType then 4 else 5) <= |c.writeBuf|
      modifies c`writeBuf
      ensures var buf := old(c.writeBuf);
              c.writeBuf == buf[..startOff] +
                (if noType then ToBE((|buf| - startOff) % TWO_32, 4) + buf[startOff + 4..]
                 else Frame(Message(buf[startOff], buf[startOff + 5..])))
    {
      hide ToBE, Frame;
      var buf := c.writeBuf;
      if noType {
        var len := ToBE((|buf| - startOff) % TWO_32, 4);
        PatchedIs(buf, startOff, len);
        c.writeBuf := buf[startOff := len[0]][startOff + 1 := len[1]][startOff + 2 := len[2]][startOff + 3 := len[3]];
      } else {
        var at := startOff + 1;
        var len := ToBE((|buf| - startOff - 1) % TWO_32, 4);
        PatchedFrame(buf, startOff);
        c.writeBuf := buf[at := len[0]][at + 1 := len[1]][at + 2 := len[2]][at + 3 := len[3]];
      }
    }
  }

  /** Several messages built in the buffer and sent with one flush. */
  method SendAll(c: Conn, ms: seq<Message>) returns (ok: bool)
    requires c.writeBuf == []
    modifies c
    ensures c.writeBuf == []
    ensures ok ==> c.sent == old(c.sent) + Frames(ms)
  {
    hide Frame;
    for i := 0 to |ms|
      invariant c.writeBuf == Frames(ms[..i]) && c.sent == old(c.sent)
    {
      ghost var before := c.writeBuf;
      var b := c.Begin(ms[i].t);
      b.Bytes(ms[i].body);
      assert c.writeBuf[b.startOff] == ms[i].t && c.writeBuf[b.startOff + 5..] == ms[i].body;
      assert c.writeBuf[..b.startOff] == before;
      b.Finish();
      assert ms[..i + 1][..i] == ms[..i];
    }
    assert ms[..|ms|] == ms;
    ok := c.Flush();
  }

  // ---- Reading ---------------------------------------------------------------------------

  datatype Received = Got(m: Message) | Bogus(length: nat) | TooLarge(size: nat) | Closed

  /** One message off the front of a byte stream. */
  function TakeMessage(s: bytes): (r: (Received, bytes))
    ensures r.0.Got? ==> |r.1| < |s|
  {
    if |s| < 5 then (Closed, [])
    else
      var length := ReadU32(s[1..5]);
      if length < 4 then (Bogus(length), s)
      else if length - 4 > MAX_MSG then (TooLarge(length - 4), s)
      else if |s| < length + 1 then (Closed, [])
      else (Got(Message(s[0], s[5..length + 1])), s[length + 1..])
  }

  lemma MovedOver(unread: bytes, rest: bytes, n: nat)
    requires n <= |rest|
    ensures (unread + rest[..n]) + rest[n..] == unread + rest
  {
  }

  /** bufio.Reader over a connection that will deliver `rest` and then end. */
  class BufReader {
    const size: nat
    const buf: array<byte>
    var r: nat
    var w: nat
    var rest: bytes

    ghost predicate Valid()
      reads this
    {
      5 <= size == buf.Length && r <= w <= size
    }

    /** Everything not yet handed out. */
    ghost function Unread(): bytes
      requires Valid()
      reads this, buf
    {
      buf[r..w] + rest
    }

    constructor (size: nat, rest: bytes)
      requires size >= 5
      ensures Valid() && fresh(buf) && this.size == size && Unread() == rest
    {
      this.size := size;
      this.buf := new byte[size](_ => 0);
      this.r, this.w, this.rest := 0, 0, rest;
    }

    /** Slides the unread bytes to the front. */
    method Compact()
      requires Valid()
      modifies this`r, this`w, buf
      ensures Valid() && r == 0 && w == old(w) - old(r) && buf[r..w] == old(buf[r..w])
    {
      var n := w - r;
      for i := 0 to n
        modifies buf
        invariant forall k :: 0 <= k < i ==> buf[k] == old(buf[r + k])
        invariant forall k :: i <= k < size ==> buf[k] == old(buf[k])
      {
        buf[i] := buf[r + i];
      }
      r, w := 0, n;
    }

    /** Puts bytes behind the unread ones. */
    method Store(src: bytes)
      requires Valid() && w + |src| <= size
      modifies buf
      ensures buf[..w] == old(buf[..w]) && buf[w..w + |src|] == src
    {
      for i := 0 to |src|
        invariant buf[..w] == old(buf[..w]) && buf[w..w + i] == src[..i]
      {
        buf[w + i] := src[i];
        assert buf[w..w + i + 1] == buf[w..w + i] + [src[i]];
      }
    }

    /** One read from the network into the free part: any non-zero number of bytes may come. */
    method ReadSome() returns (n: nat)
      requires Valid() && w < size && rest != []
      modifies this`w, this`rest, buf
      ensures Valid() && Unread() == old(Unread())
      ensures n > 0 && w == old(w) + n && |rest| < |old(rest)|
    {
      var room := if |rest| < size - w then |rest| else size - w;
      n :| 0 < n <= room;
      ghost var unread := buf[r..w];
      Store(rest[..n]);
      assert buf[r..w] == unread by {
        assert buf[r..w] == buf[..w][r..] && unread == old(buf[..w])[r..];
      }
      assert buf[r..w + n] == buf[r..w] + buf[w..w + n];
      MovedOver(unread, rest, n);
      w, rest := w + n, rest[n..];
    }

    /** The next `n` bytes without consuming them. */
    method Peek(n: nat) returns (data: Option<bytes>)
      requires Valid() && n <= size
      modifies this`r, this`w, this`rest, buf
      ensures Valid() && Unread() == old(Unread())
      ensures data == if |Unread()| >= n then Some(Unread()[..n]) else None
      ensures data.Some? ==> w - r >= n
    {
      while w - r < n && rest != []
        invariant Valid() && Unread() == old(Unread())
        decreases |rest|
      {
        if r > 0 {
          Compact();
        }
        var got := ReadSome();
      }
      if w - r < n {
        return None;
      }
      assert Unread()[..n] == buf[r..r + n];
      data := Some(buf[r..r + n]);
    }

    method Discard(n: nat)
      requires Valid() && n <= w - r
      modifies this`r
      ensures Valid() && r == old(r) + n && Unread() == old(Unread())[n..]
    {
      r := r + n;
    }

    /** Hands out the next `n` unread bytes. */
    method Take(n: nat) returns (p: bytes)
      requires Valid() && n <= w - r
      modifies this`r
      ensures Valid() && |p| == n && old(Unread()) == p + Unread()
    {
      p := buf[r..r + n];
      assert buf[r..w] == p + buf[r + n..w];
      Assoc(p, buf[r + n..w], rest);
      r := r + n;
    }

    /** bufio's Read: buffered bytes first; a large read with an empty buffer bypasses it. */
    method Read(n: nat) returns (p: bytes)
      requires Valid() && n > 0
      modifies this`r, this`w, this`rest, buf
      ensures Valid() && |p| <= n && old(Unread()) == p + Unread()
      ensures p == [] ==> old(Unread()) == []
    {
      if r == w {
        assert Unread() == rest;
        if rest == [] {
          return [];
        }
        if n >= size {
          var room := if |rest| < n then |rest| else n;
          var k: nat :| 0 < k <= room;
          p := rest[..k];
          assert rest == p + rest[k..];
          rest := rest[k..];
          assert Unread() == rest;
          return;
        }
        r, w := 0, 0;
        assert Unread() == rest;
        var got := ReadSome();
      }
      p := Take(if w - r < n then w - r else n);
    }

    /** io.ReadFull. */
    method ReadFull(n: nat) returns (p: Option<bytes>)
      requires Valid()
      modifies this`r, this`w, this`rest, buf
      ensures Valid()
      ensures |old(Unread())| >= n ==> p == Some(old(Unread())[..n]) && Unread() == old(Unread())[n..]
      ensures |old(Unread())| < n ==> p.None? && Unread() == []
    {
      ghost var s := Unread();
      var got: bytes := [];
      while |got| < n
        invariant Valid() && |got| <= n && s == got + Unread()
      {
        hide Valid, Unread;
        ghost var before := Unread();
        var more := Read(n - |got|);
        if more == [] {
          assert s == got + [];
          return None;
        }
        assert got + before == (got + more) + Unread();
        got := got + more;
      }
      assert s[..n] == got && s[n..] == Unread();
      p := Some(got);
    }
  }

  /**
   The result depends on the byte stream alone: not on the buffer size, not on how the network
   cuts the stream, not on which of the two paths is taken.
  */
  method ReadMessage(br: BufReader) returns (res: Received)
    requires br.Valid()
    modifies br`r, br`w, br`rest, br.buf
    ensures br.Valid()
    ensures res == TakeMessage(old(br.Unread())).0
    ensures !res.Closed? ==> br.Unread() == TakeMessage(old(br.Unread())).1
  {
    hide ReadU32;
    ghost var s := br.Unread();
    var hdr := br.Peek(5);
    if hdr.None? {
      return Closed;
    }
    var t := hdr.value[0];
    assert hdr.value[1..5] == s[1..5];
    var length := ReadU32(hdr.value[1..5]);
    if length < 4 {
      return Bogus(length);
    }
    var bodyLen := length - 4;
    if bodyLen > MAX_MSG {
      return TooLarge(bodyLen);
    }
    var total := 5 + bodyLen;
    if total <= br.size {
      var all := br.Peek(total);
      if all.None? {
        return Closed;
      }
      var body := all.value[5..total];
      br.Discard(total);
      return Got(Message(t, body));
    }
    br.Discard(5);
    var body := br.ReadFull(bodyLen);
    if body.None? {
      return Closed;
    }
    assert s[5..][..bodyLen] == s[5..total] && s[5..][bodyLen..] == s[total..];
    res := Got(Message(t, body.value));
  }

  // ---- Round trip ------------------------------------------------------------------------------

  function TakeMessages(s: bytes): seq<Message>
    decreases |s|
  {
    var (r, rest) := TakeMessage(s);
    if r.Got? then [r.m] + TakeMessages(rest) else []
  }

  lemma TakeFrame(m: Message, rest: bytes)
    requires |m.body| <= MAX_MSG
    ensures TakeMessage(Frame(m) + rest) == (Got(m), rest)
  {
    hide ReadU32, ToBE;
    var s := Frame(m) + rest;
    var length := |m.body| + 4;
    ReadU32RoundTrip(length);
    assert s[1..5] == ToBE(length, 4) && s[0] == m.t;
    assert s[5..length + 1] == m.body && s[length + 1..] == rest;
  }

  /** A message is taken exactly if the stream starts with its frame and its body has at most 2^28 bytes. */
  lemma TakeMessageIff(s: bytes, m: Message, rest: bytes)
    ensures TakeMessage(s) == (Got(m), rest) <==> |m.body| <= 0x1000_0000 && s == Frame(m) + rest
  {
    hide ReadU32, ToBE;
    if TakeMessage(s) == (Got(m), rest) {
      LengthIs(s[1..5]);
      var length := ReadU32(s[1..5]);
      assert s == [s[0]] + (s[1..5] + (s[5..length + 1] + s[length + 1..]));
      assert s == Frame(m) + rest;
    }
    if |m.body| <= 0x1000_0000 && s == Frame(m) + rest {
      TakeFrame(m, rest);
    }
  }

  lemma LengthIs(s: bytes)
    requires |s| == 4
    ensures ReadU32(s) < TWO_32 && ToBE(ReadU32(s) % TWO_32, 4) == s
  {
    Pow256Values();
    FromBEBound(s);
    ToFromBE(s);
  }

  lemma {:induction false} FramesFront(ms: seq<Message>)
    requires ms != []
    ensures Frames(ms) == Frame(ms[0]) + Frames(ms[1..])
  {
    hide Frame;
    var n := |ms| - 1;
    if n > 0 {
      FramesFront(ms[..n]);
      assert ms[..n][1..] == ms[1..][..n - 1] && ms[1..][n - 1] == ms[n];
    } else {
      assert ms[..0] == [] && ms[1..] == [] && Frames([]) == [];
    }
  }

  /** Any sequence of messages built and sent is read back, type for type and body for body. */
  lemma {:induction false} MessagesRoundTrip(ms: seq<Message>, rest: bytes)
    requires forall i :: 0 <= i < |ms| ==> |ms[i].body| <= MAX_MSG
    ensures TakeMessages(Frames(ms) + rest) == ms + TakeMessages(rest)
    decreases |ms|
  {
    hide Frame, TakeMessage;
    if ms == [] {
      assert Frames(ms) + rest == rest;
    } else {
      FramesFront(ms);
      var later := Frames(ms[1..]) + rest;
      assert Frames(ms) + rest == Frame(ms[0]) + later;
      TakeFrame(ms[0], later);
      MessagesRoundTrip(ms[1..], rest);
      assert ms == [ms[0]] + ms[1..];
    }
  }
}
