/**
 The connection pool (pgz/pool/pool.go) as a system of goroutines. A step is one critical
 section of the pool's mutex, one channel operation, one connection close or one dial outcome;
 a run is any interleaving of steps. Connections and channels are numbered in order of creation.
*/
module PoolModel {
  import opened Bytes

  // ---- Folds over sequences ---------------------------------------------------

  function Total<T>(xs: seq<T>, w: T -> nat): nat
  {
    if xs == [] then 0 else Total(xs[..|xs| - 1], w) + w(xs[|xs| - 1])
  }

  /** How often `c` occurs in `xs`. */
  function Occurrences(xs: seq<nat>, c: nat): nat
  {
    if xs == [] then 0 else (if xs[0] == c then 1 else 0) + Occurrences(xs[1..], c)
  }

  lemma {:induction false} OccurrencesConcat(xs: seq<nat>, ys: seq<nat>, c: nat)
    ensures Occurrences(xs + ys, c) == Occurrences(xs, c) + Occurrences(ys, c)
  {
    if xs == [] {
      assert xs + ys == ys;
    } else {
      assert (xs + ys)[1..] == xs[1..] + ys;
      OccurrencesConcat(xs[1..], ys, c);
    }
  }

  lemma OccurrencesOne(x: nat, c: nat)
    ensures Occurrences([x], c) == (if x == c then 1 else 0)
    ensures Occurrences([], c) == 0
  {
  }

  lemma OccurrencesFirst(xs: seq<nat>, c: nat)
    requires xs != []
    ensures Occurrences(xs, c) == (if xs[0] == c then 1 else 0) + Occurrences(xs[1..], c)
  {
  }

  lemma {:induction false} OccursIff(xs: seq<nat>, c: nat)
    ensures Occurrences(xs, c) > 0 <==> c in xs
  {
    if xs != [] {
      OccursIff(xs[1..], c);
      assert xs == [xs[0]] + xs[1..];
    }
  }

  lemma PopLast(xs: seq<nat>, c: nat)
    requires xs != []
    ensures Occurrences(xs, c) == Occurrences(xs[..|xs| - 1], c) + (if xs[|xs| - 1] == c then 1 else 0)
  {
    assert xs == xs[..|xs| - 1] + [xs[|xs| - 1]];
    OccurrencesConcat(xs[..|xs| - 1], [xs[|xs| - 1]], c);
  }

  lemma {:induction false} TotalUpdate<T>(xs: seq<T>, i: nat, x: T, w: T -> nat)
    requires i < |xs|
    ensures Total(xs[i := x], w) + w(xs[i]) == Total(xs, w) + w(x)
  {
    var last := |xs| - 1;
    if i == last {
      assert xs[i := x][..last] == xs[..last];
    } else {
      TotalUpdate(xs[..last], i, x, w);
      assert xs[i := x][..last] == xs[..last][i := x];
    }
  }

  lemma TotalAppend<T>(xs: seq<T>, x: T, w: T -> nat)
    ensures Total(xs + [x], w) == Total(xs, w) + w(x)
  {
    assert (xs + [x])[..|xs|] == xs;
  }

  // ---- The fields guarded by the mutex, and the critical sections ----------------

  datatype Shared = Shared(idle: seq<nat>, open: int, inUse: int, closed: bool, draining: bool, waiters: seq<nat>)

  datatype Config = Config(maxConns: nat, minIdle: nat)

  /** What a goroutine is about to do. */
  datatype Task =
    | Done
    | ErrClosed                        // acquireOnce returns ErrClosed
    | Dialing                          // acquireOnce holds a slot and dials
    | DialFailed                       // ... the dial failed
    | RetireSlot                       // about to enter discard
    | Waiting(ch: nat)                 // blocked in the select of acquireOnce
    | Cancelled(ch: nat)               // its context ended first
    | Received(conn: nat)              // took a connection from its channel
    | Holding(conn: nat)               // the caller uses the connection
    | Discarded                        // Conn.Discard has closed the connection
    | Closing(conn: nat)               // put, after shutdown
    | Uncount                          // ... the connection is closed
    | Sending(ch: nat, conn: nat)      // about to hand a connection over
    | Replacing(ch: nat)               // discard's goroutine dials a replacement
    | Replaced(ch: nat, conn: nat)
    | ReplaceFailed(ch: nat)
    | ReplaceUncount
    | Refused(ch: nat, conn: nat)      // the pool closed while the replacement was dialled
    | Draining(conns: seq<nat>, n: nat, chs: seq<nat>)
    | Waking(chs: seq<nat>)            // sends nil to each waiter
    | ShuttingDown(chs: seq<nat>, conns: seq<nat>)
    | Dropping(conns: seq<nat>)        // closes connections taken off the idle stack

  function AcquireSection(cfg: Config, p: Shared, newCh: nat): (Shared, Task)
  {
    if p.closed || p.draining then (p, ErrClosed)
    else if p.idle != [] then
      (p.(idle := p.idle[..|p.idle| - 1], inUse := p.inUse + 1), Holding(p.idle[|p.idle| - 1]))
    else if p.open < cfg.maxConns then (p.(open := p.open + 1, inUse := p.inUse + 1), Dialing)
    else (p.(waiters := p.waiters + [newCh]), Waiting(newCh))
  }

  function PutSection(p: Shared, conn: nat): (Shared, Task)
  {
    var p' := p.(inUse := p.inUse - 1);
    if p.closed || p.draining then (p', Closing(conn))
    else if p.waiters != [] then (p'.(waiters := p.waiters[1..]), Sending(p.waiters[0], conn))
    else (p'.(idle := p.idle + [conn]), Done)
  }

  /** discard: the slot goes; a waiter, if any, gets a goroutine that dials for it. */
  function RetireSection(p: Shared): (Shared, Task)
  {
    var p' := p.(open := p.open - 1);
    if p.waiters != [] then (p'.(waiters := p.waiters[1..]), Replacing(p.waiters[0])) else (p', Done)
  }

  function ReplacedSection(p: Shared, ch: nat, conn: nat): (Shared, Task)
  {
    if p.closed then (p, Refused(ch, conn)) else (p.(open := p.open + 1), Sending(ch, conn))
  }

  function IndexOf(xs: seq<nat>, x: nat): (k: nat)
    ensures k <= |xs| && (k < |xs| <==> x in xs) && (k < |xs| ==> xs[k] == x)
    ensures forall j :: 0 <= j < k ==> xs[j] != x
  {
    if xs == [] then 0 else if xs[0] == x then 0 else 1 + IndexOf(xs[1..], x)
  }

  function Without(xs: seq<nat>, x: nat): seq<nat>
  {
    var k := IndexOf(xs, x);
    if k < |xs| then xs[..k] + xs[k + 1..] else xs
  }

  function DrainSection(p: Shared): (Shared, Task)
  {
    if p.closed then (p, Done)
    else (p.(draining := true, idle := [], waiters := []), Draining(p.idle, |p.idle|, p.waiters))
  }

  function CloseSection(p: Shared): (Shared, Task)
  {
    if p.closed then (p, Done)
    else (p.(closed := true, idle := [], waiters := []), ShuttingDown(p.waiters, p.idle))
  }

  /** evictIdle's loop: (kept, dropped), given how many are kept already. */
  function Eviction(idle: seq<nat>, stale: set<nat>, minIdle: nat): (r: (seq<nat>, seq<nat>))
    ensures |r.0| + |r.1| == |idle|
  {
    if idle == [] then ([], [])
    else
      var (keep, drop) := Eviction(idle[..|idle| - 1], stale, minIdle);
      var e := idle[|idle| - 1];
      if e in stale && |keep| + 1 > minIdle then (keep, drop + [e]) else (keep + [e], drop)
  }

  function EvictSection(cfg: Config, p: Shared, stale: set<nat>): (Shared, Task)
  {
    var (keep, drop) := Eviction(p.idle, stale, cfg.minIdle);
    (p.(idle := keep, open := p.open - |drop|), Dropping(drop))
  }

  // ---- The pool object: each critical section as the source writes it -------------

  class Pool {
    const cfg: Config
    var idle: seq<nat>
    var open: int
    var inUse: int
    var closed: bool
    var draining: bool
    var waiters: seq<nat>

    function View(): Shared
      reads this
    {
      Shared(idle, open, inUse, closed, draining, waiters)
    }

    /** The first `dialled` dials of New have succeeded. */
    constructor (cfg: Config, dialled: nat)
      ensures this.cfg == cfg && View() == Shared(Upto(dialled), dialled, 0, false, false, [])
    {
      this.cfg := cfg;
      open, inUse, closed, draining, waiters := 0, 0, false, false, [];
      idle := [];
      new;
      for i := 0 to dialled
        invariant idle == Upto(i) && open == i
        invariant inUse == 0 && !closed && !draining && waiters == []
      {
        idle := idle + [i];
        open := open + 1;
      }
    }

    /**
     New opens MinIdle connections eagerly; `dialled` of the dials succeed before one fails, if one
     does. Then the pool is closed and what was dialled is closed again.
    */
    static method New(cfg: Config, dialled: nat) returns (p: Pool, task: Task)
      requires dialled <= cfg.minIdle
      ensures fresh(p) && p.cfg == cfg
      ensures dialled == cfg.minIdle ==> p.View() == Initial(cfg) && task == Done
      ensures dialled < cfg.minIdle ==> p.closed && p.idle == [] && p.waiters == [] && task == ShuttingDown([], Upto(dialled))
    {
      p := new Pool(cfg, dialled);
      task := Done;
      if dialled < cfg.minIdle {
        task := p.Close();
      }
    }

    method AcquireOnce(newCh: nat) returns (task: Task)
      modifies this
      ensures (View(), task) == AcquireSection(cfg, old(View()), newCh)
    {
      if closed || draining {
        return ErrClosed;
      }
      var n := |idle|;
      if n > 0 {
        var e := idle[n - 1];
        idle := idle[..n - 1];
        inUse := inUse + 1;
        return Holding(e);
      }
      if open < cfg.maxConns {
        open := open + 1;
        inUse := inUse + 1;
        return Dialing;
      }
      waiters := waiters + [newCh];
      return Waiting(newCh);
    }

    method Put(conn: nat) returns (task: Task)
      modifies this
      ensures (View(), task) == PutSection(old(View()), conn)
    {
      inUse := inUse - 1;
      if closed || draining {
        return Closing(conn);
      }
      if |waiters| > 0 {
        var w := waiters[0];
        waiters := waiters[1..];
        return Sending(w, conn);
      }
      idle := idle + [conn];
      return Done;
    }

    method Retire() returns (task: Task)
      modifies this
      ensures (View(), task) == RetireSection(old(View()))
    {
      open := open - 1;
      if |waiters| > 0 {
        var w := waiters[0];
        waiters := waiters[1..];
        return Replacing(w);
      }
      return Done;
    }

    method CancelWait(ch: nat)
      modifies this
      ensures View() == old(View()).(waiters := Without(old(waiters), ch))
    {
      for i := 0 to |waiters|
        invariant View() == old(View())
        invariant ch !in waiters[..i]
      {
        if waiters[i] == ch {
          assert IndexOf(waiters, ch) == i;
          waiters := waiters[..i] + waiters[i + 1..];
          return;
        }
      }
    }

    method Drain() returns (task: Task)
      modifies this
      ensures (View(), task) == DrainSection(old(View()))
    {
      if closed {
        return Done;
      }
      task := Draining(idle, |idle|, waiters);
      draining := true;
      idle := [];
      waiters := [];
    }

    method Close() returns (task: Task)
      modifies this
      ensures (View(), task) == CloseSection(old(View()))
    {
      if closed {
        return Done;
      }
      closed := true;
      task := ShuttingDown(waiters, idle);
      idle := [];
      waiters := [];
    }

    method EvictIdle(stale: set<nat>) returns (task: Task)
      modifies this
      ensures (View(), task) == EvictSection(cfg, old(View()), stale)
    {
      var keep, drop := [], [];
      for i := 0 to |idle|
        invariant View() == old(View()).(open := old(open) - |drop|)
        invariant (keep, drop) == Eviction(idle[..i], stale, cfg.minIdle)
      {
        assert idle[..i + 1][..i] == idle[..i];
        if idle[i] in stale && |keep| + 1 > cfg.minIdle {
          drop := drop + [idle[i]];
          open := open - 1;
        } else {
          keep := keep + [idle[i]];
        }
      }
      assert idle[..|idle|] == idle;
      idle := keep;
      task := Dropping(drop);
    }
  }

  // ---- The whole system --------------------------------------------------------------

  /**
   A channel of capacity one. `Taken` and `TakenNil` mark what its receiver got; `Withdrawn` marks
   a cancelled wait that no one had answered.
  */
  datatype Channel = Empty | FullConn(conn: nat) | FullNil | Taken | TakenNil | Withdrawn

  /**
   Everything there is: the guarded fields, the channels, the goroutines, the closed
   connections, and three counters that only the laws below speak of.
  */
  datatype System = System(
    p: Shared,
    chans: seq<Channel>,
    tasks: seq<Task>,
    closedConns: seq<nat>,
    nextConn: nat,
    lost: nat,        // failed replacement dials that decremented `open` a second time
    abandoned: nat,   // idle connections closed by Close, which leaves `open` alone
    replaced: nat)    // replacement connections added to `open` without a slot check

  function Upto(n: nat): (s: seq<nat>)
    ensures |s| == n && forall i :: 0 <= i < n ==> s[i] == i
  {
    if n == 0 then [] else Upto(n - 1) + [n - 1]
  }

  function Initial(cfg: Config): Shared
  {
    Shared(Upto(cfg.minIdle), cfg.minIdle, 0, false, false, [])
  }

  function Init(cfg: Config): System
  {
    System(Initial(cfg), [], [], [], cfg.minIdle, 0, 0, 0)
  }

  datatype Step =
    | Acquire
    | DialOk(t: nat) | DialErr(t: nat) | FailDial(t: nat) | Retire(t: nat)
    | Receive(t: nat) | Cancel(t: nat) | CancelWait(t: nat) | Accept(t: nat)
    | Release(t: nat) | Discard(t: nat) | DiscardCount(t: nat)
    | CloseConn(t: nat) | UncountConn(t: nat) | Send(t: nat)
    | ReplaceOk(t: nat) | ReplaceErr(t: nat) | Register(t: nat) | ReplaceUncountConn(t: nat)
    | Drain | DrainCount(t: nat) | Close | Evict(stale: set<nat>)

  predicate At(s: System, t: nat) { t < |s.tasks| }

  /** The channel a goroutine is about to send on, if its next operation is a send. */
  predicate ReadyToSend(k: Task)
  {
    || k.Sending? || k.ReplaceFailed?
    || (k.Waking? && k.chs != []) || (k.ShuttingDown? && k.chs != [])
  }

  function SendTarget(k: Task): nat
    requires ReadyToSend(k)
  {
    match k
    case Sending(ch, _) => ch
    case ReplaceFailed(ch) => ch
    case Waking(chs) => chs[0]
    case ShuttingDown(chs, _) => chs[0]
  }

  predicate ReadyToClose(k: Task)
  {
    || k.Closing? || k.Refused?
    || (k.Draining? && k.conns != []) || (k.Dropping? && k.conns != [])
    || (k.ShuttingDown? && k.chs == [] && k.conns != [])
  }

  predicate Enabled(s: System, step: Step)
  {
    match step
    case Acquire => true
    case DialOk(t) => At(s, t) && s.tasks[t].Dialing?
    case DialErr(t) => At(s, t) && s.tasks[t].Dialing?
    case FailDial(t) => At(s, t) && s.tasks[t].DialFailed?
    case Retire(t) => At(s, t) && s.tasks[t].RetireSlot?
    case Receive(t) => At(s, t) && s.tasks[t].Waiting? && s.tasks[t].ch < |s.chans|
                       && (s.chans[s.tasks[t].ch].FullConn? || s.chans[s.tasks[t].ch].FullNil?)
    case Cancel(t) => At(s, t) && s.tasks[t].Waiting?
    case CancelWait(t) => At(s, t) && s.tasks[t].Cancelled?
    case Accept(t) => At(s, t) && s.tasks[t].Received?
    case Release(t) => At(s, t) && s.tasks[t].Holding?
    case Discard(t) => At(s, t) && s.tasks[t].Holding?
    case DiscardCount(t) => At(s, t) && s.tasks[t].Discarded?
    case CloseConn(t) => At(s, t) && ReadyToClose(s.tasks[t])
    case UncountConn(t) => At(s, t) && s.tasks[t].Uncount?
    case Send(t) => At(s, t) && ReadyToSend(s.tasks[t])
                    && SendTarget(s.tasks[t]) < |s.chans| && s.chans[SendTarget(s.tasks[t])].Empty?
    case ReplaceOk(t) => At(s, t) && s.tasks[t].Replacing?
    case ReplaceErr(t) => At(s, t) && s.tasks[t].Replacing?
    case Register(t) => At(s, t) && s.tasks[t].Replaced?
    case ReplaceUncountConn(t) => At(s, t) && s.tasks[t].ReplaceUncount?
    case Drain => true
    case DrainCount(t) => At(s, t) && s.tasks[t].Draining? && s.tasks[t].conns == []
    case Close => true
    case Evict(_) => true
  }

  function Move(s: System, t: nat, k: Task): System
    requires At(s, t)
  {
    s.(tasks := s.tasks[t := k])
  }

  function Spawn(s: System, k: Task): System { s.(tasks := s.tasks + [k]) }

  function AfterClose(k: Task): (nat, Task)
    requires ReadyToClose(k)
  {
    match k
    case Closing(conn) => (conn, Uncount)
    case Refused(ch, conn) => (conn, Waking([ch]))
    case Draining(conns, n, chs) => (conns[0], Draining(conns[1..], n, chs))
    case Dropping(conns) => (conns[0], Dropping(conns[1..]))
    case ShuttingDown(chs, conns) => (conns[0], ShuttingDown(chs, conns[1..]))
  }

  /** nil means ErrClosed, even from a pool that is open. */
  function AfterReceive(c: Channel): (Channel, Task)
    requires c.FullConn? || c.FullNil?
  {
    if c.FullConn? then (Taken, Received(c.conn)) else (TakenNil, ErrClosed)
  }

  function AfterSend(k: Task): (Channel, Task)
    requires ReadyToSend(k)
  {
    match k
    case Sending(_, conn) => (FullConn(conn), Done)
    case ReplaceFailed(_) => (FullNil, ReplaceUncount)
    case Waking(chs) => (FullNil, Waking(chs[1..]))
    case ShuttingDown(chs, conns) => (FullNil, ShuttingDown(chs[1..], conns))
  }

  function Apply(cfg: Config, s: System, step: Step): System
    requires Enabled(s, step)
  {
    match step
    case Acquire =>
      var (p, k) := AcquireSection(cfg, s.p, |s.chans|);
      Spawn(s.(p := p, chans := if k.Waiting? then s.chans + [Empty] else s.chans), k)
    case DialOk(t) => Move(s.(nextConn := s.nextConn + 1), t, Holding(s.nextConn))
    case DialErr(t) => Move(s, t, DialFailed)
    case FailDial(t) => Move(s.(p := s.p.(inUse := s.p.inUse - 1)), t, RetireSlot)
    case Retire(t) =>
      var (p, k) := RetireSection(s.p);
      Spawn(Move(s.(p := p), t, Done), k)
    case Receive(t) =>
      var ch := s.tasks[t].ch;
      var (c, k) := AfterReceive(s.chans[ch]);
      Move(s.(chans := s.chans[ch := c]), t, k)
    case Cancel(t) => Move(s, t, Cancelled(s.tasks[t].ch))
    case CancelWait(t) =>
      var ch := s.tasks[t].ch;
      var found := ch in s.p.waiters && ch < |s.chans|;
      Move(s.(p := s.p.(waiters := Without(s.p.waiters, ch)),
              chans := if found then s.chans[ch := Withdrawn] else s.chans), t, Done)
    case Accept(t) => Move(s.(p := s.p.(inUse := s.p.inUse + 1)), t, Holding(s.tasks[t].conn))
    case Release(t) =>
      var (p, k) := PutSection(s.p, s.tasks[t].conn);
      Move(s.(p := p), t, k)
    case Discard(t) =>
      Move(s.(closedConns := s.closedConns + [s.tasks[t].conn]), t, Discarded)
    case DiscardCount(t) => Move(s.(p := s.p.(inUse := s.p.inUse - 1)), t, RetireSlot)
    case CloseConn(t) =>
      var (conn, k) := AfterClose(s.tasks[t]);
      Move(s.(closedConns := s.closedConns + [conn]), t, k)
    case UncountConn(t) => Move(s.(p := s.p.(open := s.p.open - 1)), t, Done)
    case Send(t) =>
      var (c, k) := AfterSend(s.tasks[t]);
      Move(s.(chans := s.chans[SendTarget(s.tasks[t]) := c]), t, k)
    case ReplaceOk(t) => Move(s.(nextConn := s.nextConn + 1), t, Replaced(s.tasks[t].ch, s.nextConn))
    case ReplaceErr(t) => Move(s, t, ReplaceFailed(s.tasks[t].ch))
    case Register(t) =>
      var (p, k) := ReplacedSection(s.p, s.tasks[t].ch, s.tasks[t].conn);
      Move(s.(p := p, replaced := s.replaced + (if s.p.closed then 0 else 1)), t, k)
    case ReplaceUncountConn(t) =>
      if s.p.closed then Move(s, t, Done)
      else Move(s.(p := s.p.(open := s.p.open - 1), lost := s.lost + 1), t, Done)
    case Drain =>
      var (p, k) := DrainSection(s.p);
      Spawn(s.(p := p), k)
    case DrainCount(t) =>
      var k := s.tasks[t];
      Move(s.(p := s.p.(open := s.p.open - k.n)), t, Waking(k.chs))
    case Close =>
      var (p, k) := CloseSection(s.p);
      Spawn(s.(p := p, abandoned := s.abandoned + (if s.p.closed then 0 else |s.p.idle|)), k)
    case Evict(stale) =>
      var (p, k) := EvictSection(cfg, s.p, stale);
      Spawn(s.(p := p), k)
  }

  // ---- The laws ------------------------------------------------------------------------

  /** Callers holding a connection (or just rid of one), and acquire-time dials. */
  function InUseWeight(k: Task): nat
  {
    if k.Dialing? || k.DialFailed? || k.Holding? || k.Discarded? then 1 else 0
  }

  /** How much of `open` a goroutine stands for. */
  function OpenWeight(k: Task): nat
  {
    match k
    case Dialing => 1
    case DialFailed => 1
    case RetireSlot => 1
    case Received(_) => 1
    case Holding(_) => 1
    case Discarded => 1
    case Closing(_) => 1
    case Uncount => 1
    case Sending(_, _) => 1
    case Draining(_, n, _) => n
    case _ => 0
  }

  function ChannelWeight(c: Channel): nat { if c.FullConn? then 1 else 0 }

  function TaskConns(k: Task): seq<nat>
  {
    match k
    case Received(conn) => [conn]
    case Holding(conn) => [conn]
    case Closing(conn) => [conn]
    case Sending(_, conn) => [conn]
    case Replaced(_, conn) => [conn]
    case Refused(_, conn) => [conn]
    case Draining(conns, _, _) => conns
    case ShuttingDown(_, conns) => conns
    case Dropping(conns) => conns
    case _ => []
  }

  function ChannelConns(c: Channel): seq<nat> { if c.FullConn? then [c.conn] else [] }

  /** The channels a goroutine has the right to send on. */
  function TaskRights(k: Task): seq<nat>
  {
    match k
    case Sending(ch, _) => [ch]
    case Replacing(ch) => [ch]
    case Replaced(ch, _) => [ch]
    case ReplaceFailed(ch) => [ch]
    case Refused(ch, _) => [ch]
    case Draining(_, _, chs) => chs
    case Waking(chs) => chs
    case ShuttingDown(chs, _) => chs
    case _ => []
  }

  /** The channel a goroutine may still receive from or withdraw. */
  function TaskWaits(k: Task): seq<nat>
  {
    match k
    case Waiting(ch) => [ch]
    case Cancelled(ch) => [ch]
    case _ => []
  }

  function ConnWeight(c: nat): Task -> nat { (k: Task) => Occurrences(TaskConns(k), c) }
  function ChannelConnWeight(c: nat): Channel -> nat { (x: Channel) => Occurrences(ChannelConns(x), c) }
  function RightWeight(ch: nat): Task -> nat { (k: Task) => Occurrences(TaskRights(k), ch) }
  function WaitWeight(ch: nat): Task -> nat { (k: Task) => Occurrences(TaskWaits(k), ch) }

  /** The places connection `c` is in: the idle stack, a channel, or a goroutine's hands. */
  function Places(s: System, c: nat): nat
  {
    Occurrences(s.p.idle, c) + Total(s.chans, ChannelConnWeight(c)) + Total(s.tasks, ConnWeight(c))
  }

  /** Those who may still send on channel `ch`: it is in the waiter list, or a goroutine took it from there. */
  function Senders(s: System, ch: nat): nat
  {
    Occurrences(s.p.waiters, ch) + Total(s.tasks, RightWeight(ch))
  }

  function Counted(s: System): nat
  {
    |s.p.idle| + Total(s.chans, ChannelWeight) + Total(s.tasks, OpenWeight)
  }

  predicate IsEmpty(s: System, ch: nat) { ch < |s.chans| && s.chans[ch].Empty? }

  predicate IsPending(s: System, ch: nat)
  {
    ch < |s.chans| && (s.chans[ch].Empty? || s.chans[ch].FullConn? || s.chans[ch].FullNil?)
  }

  /** Every connection ever opened is in exactly one place or closed, and closed once. */
  ghost predicate OwnershipLaw(s: System)
  {
    forall c: nat :: Places(s, c) + Occurrences(s.closedConns, c) == (if c < s.nextConn then 1 else 0)
  }

  /** A channel that has had no send has exactly one future sender; any other has none. */
  ghost predicate SendLaw(s: System)
  {
    forall ch: nat :: Senders(s, ch) == (if IsEmpty(s, ch) then 1 else 0)
  }

  /** A channel has at most one receiver, and only until its message is taken or withdrawn. */
  ghost predicate WaitLaw(s: System)
  {
    forall ch: nat :: Total(s.tasks, WaitWeight(ch)) <= (if IsPending(s, ch) then 1 else 0)
  }

  predicate Shut(p: Shared) { p.closed || p.draining ==> p.idle == [] && p.waiters == [] }

  function Limit(cfg: Config): nat { if cfg.maxConns < cfg.minIdle then cfg.minIdle else cfg.maxConns }

  ghost predicate Inv(cfg: Config, s: System)
  {
    && s.p.inUse == Total(s.tasks, InUseWeight)
    && s.p.open + s.lost == Counted(s) + s.abandoned
    && OwnershipLaw(s) && SendLaw(s) && WaitLaw(s)
    && Shut(s.p) && s.p.open <= s.replaced + Limit(cfg)
  }

  // ---- How one step moves the sums ----------------------------------------------------

  predicate OnlySpawns(step: Step) { step.Acquire? || step.Drain? || step.Close? || step.Evict? }

  /** The goroutine a step belongs to, before it; goroutines a step creates start as Done. */
  function Before(cfg: Config, s: System, step: Step): Task
    requires Enabled(s, step)
  {
    if OnlySpawns(step) then Done else s.tasks[step.t]
  }

  function After(cfg: Config, s: System, step: Step): Task
    requires Enabled(s, step)
  {
    if OnlySpawns(step) then Done else Apply(cfg, s, step).tasks[step.t]
  }

  function Spawned(cfg: Config, s: System, step: Step): Task
    requires Enabled(s, step)
  {
    if OnlySpawns(step) || step.Retire? then Apply(cfg, s, step).tasks[|s.tasks|] else Done
  }

  function Moved(cfg: Config, s: System, step: Step): seq<Task>
    requires Enabled(s, step)
  {
    if OnlySpawns(step) then s.tasks else s.tasks[step.t := After(cfg, s, step)]
  }

  lemma StepShape(cfg: Config, s: System, step: Step)
    requires Enabled(s, step)
    ensures Apply(cfg, s, step).tasks == Moved(cfg, s, step)
                                       + (if OnlySpawns(step) || step.Retire? then [Spawned(cfg, s, step)] else [])
  {
  }

  lemma StepTotals(cfg: Config, s: System, step: Step, w: Task -> nat)
    requires Enabled(s, step) && w(Done) == 0
    ensures Total(Apply(cfg, s, step).tasks, w) + w(Before(cfg, s, step))
         == Total(s.tasks, w) + w(After(cfg, s, step)) + w(Spawned(cfg, s, step))
  {
    hide Apply, After, Spawned;
    StepShape(cfg, s, step);
    var moved := Moved(cfg, s, step);
    assert moved + [] == moved;
    if !OnlySpawns(step) {
      TotalUpdate(s.tasks, step.t, After(cfg, s, step), w);
    }
    TotalAppend(moved, Spawned(cfg, s, step), w);
    NoSpawn(cfg, s, step);
  }

  lemma NoSpawn(cfg: Config, s: System, step: Step)
    requires Enabled(s, step)
    ensures !OnlySpawns(step) && !step.Retire? ==> Spawned(cfg, s, step) == Done
    ensures OnlySpawns(step) ==> After(cfg, s, step) == Done
  {
  }

  lemma {:induction false} EvictionSplits(idle: seq<nat>, stale: set<nat>, minIdle: nat, c: nat)
    ensures var (keep, drop) := Eviction(idle, stale, minIdle);
            Occurrences(keep, c) + Occurrences(drop, c) == Occurrences(idle, c)
  {
    if idle != [] {
      EvictionSplits(idle[..|idle| - 1], stale, minIdle, c);
      PopLast(idle, c);
      var (keep, drop) := Eviction(idle[..|idle| - 1], stale, minIdle);
      var e := idle[|idle| - 1];
      OccurrencesConcat(keep, [e], c);
      OccurrencesConcat(drop, [e], c);
    }
  }

  lemma InitInv(cfg: Config)
    ensures Inv(cfg, Init(cfg))
  {
    forall c: nat ensures Occurrences(Upto(cfg.minIdle), c) == (if c < cfg.minIdle then 1 else 0) {
      UptoOnce(cfg.minIdle, c);
    }
  }

  lemma {:induction false} UptoOnce(n: nat, c: nat)
    ensures Occurrences(Upto(n), c) == (if c < n then 1 else 0)
  {
    if n > 0 {
      UptoOnce(n - 1, c);
      PopLast(Upto(n), c);
    }
  }

  lemma InUseDelta(cfg: Config, s: System, step: Step)
    requires Enabled(s, step)
    ensures Apply(cfg, s, step).p.inUse + InUseWeight(Before(cfg, s, step))
         == s.p.inUse + InUseWeight(After(cfg, s, step)) + InUseWeight(Spawned(cfg, s, step))
  {
    match step
    case _ =>
  }

  lemma InUseStep(cfg: Config, s: System, step: Step)
    requires Enabled(s, step)
    requires s.p.inUse == Total(s.tasks, InUseWeight)
    ensures Apply(cfg, s, step).p.inUse == Total(Apply(cfg, s, step).tasks, InUseWeight)
  {
    hide Apply, Before, After, Spawned, InUseWeight;
    assert InUseWeight(Done) == 0 by { DoneWeighsNothing(); }
    StepTotals(cfg, s, step, InUseWeight);
    InUseDelta(cfg, s, step);
  }

  lemma DoneWeighsNothing()
    ensures InUseWeight(Done) == 0 && OpenWeight(Done) == 0
    ensures forall c: nat :: ConnWeight(c)(Done) == 0 && RightWeight(c)(Done) == 0 && WaitWeight(c)(Done) == 0
  {
  }

  // ---- open ---------------------------------------------------------------------------

  /** The channel whose state a step changes; `|chans|` stands for one being created. */
  function TouchedChannel(s: System, step: Step): Option<nat>
    requires Enabled(s, step)
  {
    match step
    case Receive(t) => Some(s.tasks[t].ch)
    case Send(t) => Some(SendTarget(s.tasks[t]))
    case CancelWait(t) =>
      if s.tasks[t].ch in s.p.waiters && s.tasks[t].ch < |s.chans| then Some(s.tasks[t].ch) else None
    case _ => None
  }

  function ChannelBefore(s: System, step: Step): Channel
    requires Enabled(s, step)
  {
    match TouchedChannel(s, step)
    case None => Empty
    case Some(ch) => s.chans[ch]
  }

  function ChannelAfter(cfg: Config, s: System, step: Step): Channel
    requires Enabled(s, step)
  {
    match TouchedChannel(s, step)
    case None => Empty
    case Some(ch) => Apply(cfg, s, step).chans[ch]
  }

  lemma ChannelShape(cfg: Config, s: System, step: Step)
    requires Enabled(s, step)
    ensures var chans := Apply(cfg, s, step).chans;
            match TouchedChannel(s, step)
            case None => chans == s.chans || chans == s.chans + [Empty]
            case Some(ch) => ch < |s.chans| && chans == s.chans[ch := ChannelAfter(cfg, s, step)]
  {
    match step
    case _ =>
  }

  lemma ChannelSums(cfg: Config, s: System, step: Step, w: Channel -> nat)
    requires Enabled(s, step) && w(Empty) == 0
    ensures Total(Apply(cfg, s, step).chans, w) + w(ChannelBefore(s, step))
         == Total(s.chans, w) + w(ChannelAfter(cfg, s, step))
  {
    hide Apply;
    ChannelShape(cfg, s, step);
    match TouchedChannel(s, step) {
      case None => TotalAppend(s.chans, Empty, w);
      case Some(ch) => TotalUpdate(s.chans, ch, ChannelAfter(cfg, s, step), w);
    }
  }

  /** Waiters are always channels nobody has answered yet. */
  predicate WaitersFresh(s: System)
  {
    forall ch :: ch in s.p.waiters ==> IsEmpty(s, ch)
  }

  lemma SendLawMakesFresh(s: System)
    requires SendLaw(s)
    ensures WaitersFresh(s)
  {
    forall ch | ch in s.p.waiters ensures IsEmpty(s, ch) {
      OccursIff(s.p.waiters, ch);
      assert Senders(s, ch) > 0;
    }
  }

  /** The change of both sides of the `open` law in one step. */
  ghost predicate OpenBalanced(cfg: Config, s: System, step: Step)
    requires Enabled(s, step)
  {
    var s' := Apply(cfg, s, step);
    s'.p.open + s'.lost + OpenWeight(Before(cfg, s, step))
      + |s.p.idle| + ChannelWeight(ChannelBefore(s, step)) + s.abandoned
    == s.p.open + s.lost + OpenWeight(After(cfg, s, step)) + OpenWeight(Spawned(cfg, s, step))
      + |s'.p.idle| + ChannelWeight(ChannelAfter(cfg, s, step)) + s'.abandoned
  }

  lemma OpenDeltaSpawn(cfg: Config, s: System, step: Step)
    requires Enabled(s, step) && OnlySpawns(step)
    ensures OpenBalanced(cfg, s, step)
  {
  }

  lemma OpenDeltaTouch(cfg: Config, s: System, step: Step)
    requires Enabled(s, step) && WaitersFresh(s)
    requires step.Receive? || step.Send? || step.CancelWait?
    ensures OpenBalanced(cfg, s, step)
  {
  }

  lemma OpenDeltaClose(cfg: Config, s: System, step: Step)
    requires Enabled(s, step) && step.CloseConn?
    ensures OpenBalanced(cfg, s, step)
  {
  }

  lemma OpenDelta(cfg: Config, s: System, step: Step)
    requires Enabled(s, step) && WaitersFresh(s)
    ensures OpenBalanced(cfg, s, step)
  {
    if OnlySpawns(step) {
      OpenDeltaSpawn(cfg, s, step);
    } else if step.Receive? || step.Send? || step.CancelWait? {
      OpenDeltaTouch(cfg, s, step);
    } else if step.CloseConn? {
      OpenDeltaClose(cfg, s, step);
    }
  }

  lemma OpenStep(cfg: Config, s: System, step: Step)
    requires Enabled(s, step) && SendLaw(s)
    requires s.p.open + s.lost == Counted(s) + s.abandoned
    ensures Apply(cfg, s, step).p.open + Apply(cfg, s, step).lost
         == Counted(Apply(cfg, s, step)) + Apply(cfg, s, step).abandoned
  {
    SendLawMakesFresh(s);
    hide Apply, Before, After, Spawned, OpenWeight, ChannelWeight, ChannelBefore, ChannelAfter;
    DoneWeighsNothing();
    StepTotals(cfg, s, step, OpenWeight);
    assert ChannelWeight(Empty) == 0 by { EmptyWeighsNothing(); }
    ChannelSums(cfg, s, step, ChannelWeight);
    OpenDelta(cfg, s, step);
  }

  lemma EmptyWeighsNothing()
    ensures ChannelWeight(Empty) == 0
    ensures forall c: nat :: ChannelConnWeight(c)(Empty) == 0
  {
  }

  // ---- Ownership ---------------------------------------------------------------------

  function Born(s: System, c: nat): nat { if c < s.nextConn then 1 else 0 }

  /** The change of both sides of the ownership law, for connection `c`. */
  ghost predicate OwnedBalanced(cfg: Config, s: System, step: Step, c: nat)
    requires Enabled(s, step)
  {
    var s' := Apply(cfg, s, step);
    Occurrences(s'.p.idle, c) + ChannelConnWeight(c)(ChannelAfter(cfg, s, step)) + ConnWeight(c)(After(cfg, s, step))
      + ConnWeight(c)(Spawned(cfg, s, step)) + Occurrences(s'.closedConns, c) + Born(s, c)
    == Occurrences(s.p.idle, c) + ChannelConnWeight(c)(ChannelBefore(s, step)) + ConnWeight(c)(Before(cfg, s, step))
      + Occurrences(s.closedConns, c) + Born(s', c)
  }

  lemma OwnedDeltaAcquire(cfg: Config, s: System, step: Step, c: nat)
    requires Enabled(s, step) && step.Acquire?
    ensures OwnedBalanced(cfg, s, step, c)
  {
    if s.p.idle != [] {
      PopLast(s.p.idle, c);
      OccurrencesOne(s.p.idle[|s.p.idle| - 1], c);
    }
  }

  lemma OwnedDeltaEvict(cfg: Config, s: System, step: Step, c: nat)
    requires Enabled(s, step) && step.Evict?
    ensures OwnedBalanced(cfg, s, step, c)
  {
    hide Occurrences, Eviction;
    OccurrencesOne(0, c);
    EvictionSplits(s.p.idle, step.stale, cfg.minIdle, c);
  }

  lemma OwnedDeltaShutdown(cfg: Config, s: System, step: Step, c: nat)
    requires Enabled(s, step) && (step.Drain? || step.Close?)
    ensures OwnedBalanced(cfg, s, step, c)
  {
  }

  lemma OwnedDeltaReceive(cfg: Config, s: System, step: Step, c: nat)
    requires Enabled(s, step) && step.Receive?
    ensures OwnedBalanced(cfg, s, step, c)
  {
  }

  lemma OwnedDeltaSend(cfg: Config, s: System, step: Step, c: nat)
    requires Enabled(s, step) && step.Send?
    ensures OwnedBalanced(cfg, s, step, c)
  {
  }

  lemma OwnedDeltaCancel(cfg: Config, s: System, step: Step, c: nat)
    requires Enabled(s, step) && WaitersFresh(s) && step.CancelWait?
    ensures OwnedBalanced(cfg, s, step, c)
  {
    hide Without;
  }

  /** Closing a connection is all a goroutine does with it. */
  lemma CloseGivesUp(k: Task, c: nat)
    requires ReadyToClose(k)
    ensures ConnWeight(c)(k) == ConnWeight(c)(AfterClose(k).1) + (if AfterClose(k).0 == c then 1 else 0)
  {
    hide Occurrences;
    OccurrencesOne(AfterClose(k).0, c);
    match k
    case Draining(conns, _, _) => OccurrencesFirst(conns, c);
    case Dropping(conns) => OccurrencesFirst(conns, c);
    case ShuttingDown(_, conns) => OccurrencesFirst(conns, c);
    case _ =>
  }

  lemma OwnedDeltaClose(cfg: Config, s: System, step: Step, c: nat)
    requires Enabled(s, step) && step.CloseConn?
    ensures OwnedBalanced(cfg, s, step, c)
  {
    CloseGivesUp(s.tasks[step.t], c);
    var conn := AfterClose(s.tasks[step.t]).0;
    OccurrencesConcat(s.closedConns, [conn], c);
    OccurrencesOne(conn, c);
    assert ConnWeight(c)(Done) == 0 by { DoneWeighsNothing(); }
    hide Occurrences, ConnWeight;
    assert After(cfg, s, step) == AfterClose(s.tasks[step.t]).1;
  }

  lemma OwnedDeltaHolder(cfg: Config, s: System, step: Step, c: nat)
    requires Enabled(s, step) && (step.Release? || step.Discard?)
    ensures OwnedBalanced(cfg, s, step, c)
  {
    hide Occurrences;
    OccurrencesOne(s.tasks[step.t].conn, c);
    OccurrencesConcat(s.p.idle, [s.tasks[step.t].conn], c);
    OccurrencesConcat(s.closedConns, [s.tasks[step.t].conn], c);
  }

  lemma OwnedDeltaDial(cfg: Config, s: System, step: Step, c: nat)
    requires Enabled(s, step) && (step.DialOk? || step.ReplaceOk? || step.Accept? || step.Register? || step.Retire?)
    ensures OwnedBalanced(cfg, s, step, c)
  {
    hide Occurrences;
    OccurrencesOne(s.nextConn, c);
  }

  lemma OwnedDelta(cfg: Config, s: System, step: Step, c: nat)
    requires Enabled(s, step) && WaitersFresh(s)
    ensures OwnedBalanced(cfg, s, step, c)
  {
    if step.Acquire? {
      OwnedDeltaAcquire(cfg, s, step, c);
    } else if step.Evict? {
      OwnedDeltaEvict(cfg, s, step, c);
    } else if step.Drain? || step.Close? {
      OwnedDeltaShutdown(cfg, s, step, c);
    } else if step.Receive? {
      OwnedDeltaReceive(cfg, s, step, c);
    } else if step.Send? {
      OwnedDeltaSend(cfg, s, step, c);
    } else if step.CancelWait? {
      OwnedDeltaCancel(cfg, s, step, c);
    } else if step.CloseConn? {
      OwnedDeltaClose(cfg, s, step, c);
    } else if step.Release? || step.Discard? {
      OwnedDeltaHolder(cfg, s, step, c);
    } else if step.DialOk? || step.ReplaceOk? || step.Accept? || step.Register? || step.Retire? {
      OwnedDeltaDial(cfg, s, step, c);
    }
  }

  lemma OwnershipStep(cfg: Config, s: System, step: Step)
    requires Enabled(s, step) && SendLaw(s) && OwnershipLaw(s)
    ensures OwnershipLaw(Apply(cfg, s, step))
  {
    SendLawMakesFresh(s);
    DoneWeighsNothing();
    EmptyWeighsNothing();
    var s' := Apply(cfg, s, step);
    forall c: nat ensures Places(s', c) + Occurrences(s'.closedConns, c) == (if c < s'.nextConn then 1 else 0) {
      hide Apply, Before, After, Spawned, ConnWeight, ChannelConnWeight, ChannelBefore, ChannelAfter, Occurrences;
      assert Places(s, c) + Occurrences(s.closedConns, c) == Born(s, c);
      StepTotals(cfg, s, step, ConnWeight(c));
      ChannelSums(cfg, s, step, ChannelConnWeight(c));
      OwnedDelta(cfg, s, step, c);
    }
  }

  // ---- The right to send ----------------------------------------------------------------

  /** The change of both sides of the send law, for channel `ch`. */
  ghost predicate RightsBalanced(cfg: Config, s: System, step: Step, ch: nat)
    requires Enabled(s, step)
  {
    var s' := Apply(cfg, s, step);
    Occurrences(s'.p.waiters, ch) + RightWeight(ch)(After(cfg, s, step)) + RightWeight(ch)(Spawned(cfg, s, step))
      + (if IsEmpty(s, ch) then 1 else 0)
    == Occurrences(s.p.waiters, ch) + RightWeight(ch)(Before(cfg, s, step)) + (if IsEmpty(s', ch) then 1 else 0)
  }

  lemma WithoutOne(xs: seq<nat>, x: nat, c: nat)
    ensures Occurrences(Without(xs, x), c) + (if c == x && x in xs then 1 else 0) == Occurrences(xs, c)
  {
    hide Occurrences, IndexOf;
    var k := IndexOf(xs, x);
    if k < |xs| {
      assert xs == xs[..k] + ([x] + xs[k + 1..]);
      OccurrencesConcat(xs[..k], [x] + xs[k + 1..], c);
      OccurrencesConcat([x], xs[k + 1..], c);
      OccurrencesConcat(xs[..k], xs[k + 1..], c);
      OccurrencesOne(x, c);
    }
  }

  lemma RightsDeltaAcquire(cfg: Config, s: System, step: Step, ch: nat)
    requires Enabled(s, step) && step.Acquire?
    ensures RightsBalanced(cfg, s, step, ch)
  {
    hide Occurrences;
    OccurrencesConcat(s.p.waiters, [|s.chans|], ch);
    OccurrencesOne(|s.chans|, ch);
  }

  lemma RightsDeltaCancel(cfg: Config, s: System, step: Step, ch: nat)
    requires Enabled(s, step) && step.CancelWait? && WaitersFresh(s)
    ensures RightsBalanced(cfg, s, step, ch)
  {
    hide Occurrences;
    WithoutOne(s.p.waiters, s.tasks[step.t].ch, ch);
    OccurrencesOne(0, ch);
  }

  /** Sending uses up one right to the channel it sends on. */
  lemma SendUsesRight(k: Task, ch: nat)
    requires ReadyToSend(k)
    ensures RightWeight(ch)(k) == RightWeight(ch)(AfterSend(k).1) + (if SendTarget(k) == ch then 1 else 0)
  {
    hide Occurrences;
    OccurrencesOne(SendTarget(k), ch);
    match k
    case Waking(chs) => OccurrencesFirst(chs, ch);
    case ShuttingDown(chs, _) => OccurrencesFirst(chs, ch);
    case _ =>
  }

  lemma RightsDeltaSend(cfg: Config, s: System, step: Step, ch: nat)
    requires Enabled(s, step) && step.Send?
    ensures RightsBalanced(cfg, s, step, ch)
  {
    SendUsesRight(s.tasks[step.t], ch);
    OccurrencesOne(0, ch);
    hide Occurrences, RightWeight;
    assert RightWeight(ch)(Done) == 0 by { DoneWeighsNothing(); }
    assert After(cfg, s, step) == AfterSend(s.tasks[step.t]).1;
  }

  lemma RightsDeltaPop(cfg: Config, s: System, step: Step, ch: nat)
    requires Enabled(s, step) && (step.Release? || step.Retire?)
    ensures RightsBalanced(cfg, s, step, ch)
  {
    hide Occurrences;
    OccurrencesOne(0, ch);
    if s.p.waiters != [] {
      OccurrencesOne(s.p.waiters[0], ch);
      OccurrencesConcat([s.p.waiters[0]], s.p.waiters[1..], ch);
      assert s.p.waiters == [s.p.waiters[0]] + s.p.waiters[1..];
    }
  }

  lemma RightsDeltaClose(cfg: Config, s: System, step: Step, ch: nat)
    requires Enabled(s, step) && step.CloseConn?
    ensures RightsBalanced(cfg, s, step, ch)
  {
  }

  lemma RightsDeltaSpawn(cfg: Config, s: System, step: Step, ch: nat)
    requires Enabled(s, step) && (step.Drain? || step.Close? || step.Evict?)
    ensures RightsBalanced(cfg, s, step, ch)
  {
    hide Occurrences, Eviction;
    OccurrencesOne(0, ch);
  }

  lemma RightsDeltaReplace(cfg: Config, s: System, step: Step, ch: nat)
    requires Enabled(s, step)
    requires step.ReplaceOk? || step.ReplaceErr? || step.Register? || step.ReplaceUncountConn?
    ensures RightsBalanced(cfg, s, step, ch)
  {
    hide Occurrences;
    OccurrencesOne(0, ch);
  }

  lemma RightsDeltaWait(cfg: Config, s: System, step: Step, ch: nat)
    requires Enabled(s, step) && (step.Receive? || step.Cancel? || step.DrainCount?)
    ensures RightsBalanced(cfg, s, step, ch)
  {
    hide Occurrences;
    OccurrencesOne(0, ch);
  }

  lemma RightsDeltaOther(cfg: Config, s: System, step: Step, ch: nat)
    requires Enabled(s, step)
    requires step.DialOk? || step.DialErr? || step.FailDial? || step.Accept?
          || step.Discard? || step.DiscardCount? || step.UncountConn?
    ensures RightsBalanced(cfg, s, step, ch)
  {
    hide Occurrences;
    OccurrencesOne(0, ch);
  }

  lemma RightsDelta(cfg: Config, s: System, step: Step, ch: nat)
    requires Enabled(s, step) && WaitersFresh(s)
    ensures RightsBalanced(cfg, s, step, ch)
  {
    hide RightsBalanced;
    match step
    case Acquire => RightsDeltaAcquire(cfg, s, step, ch);
    case CancelWait(_) => RightsDeltaCancel(cfg, s, step, ch);
    case Send(_) => RightsDeltaSend(cfg, s, step, ch);
    case Release(_) => RightsDeltaPop(cfg, s, step, ch);
    case Retire(_) => RightsDeltaPop(cfg, s, step, ch);
    case CloseConn(_) => RightsDeltaClose(cfg, s, step, ch);
    case Drain => RightsDeltaSpawn(cfg, s, step, ch);
    case Close => RightsDeltaSpawn(cfg, s, step, ch);
    case Evict(_) => RightsDeltaSpawn(cfg, s, step, ch);
    case ReplaceOk(_) => RightsDeltaReplace(cfg, s, step, ch);
    case ReplaceErr(_) => RightsDeltaReplace(cfg, s, step, ch);
    case Register(_) => RightsDeltaReplace(cfg, s, step, ch);
    case ReplaceUncountConn(_) => RightsDeltaReplace(cfg, s, step, ch);
    case Receive(_) => RightsDeltaWait(cfg, s, step, ch);
    case Cancel(_) => RightsDeltaWait(cfg, s, step, ch);
    case DrainCount(_) => RightsDeltaWait(cfg, s, step, ch);
    case _ => RightsDeltaOther(cfg, s, step, ch);
  }

  lemma SendLawStep(cfg: Config, s: System, step: Step)
    requires Enabled(s, step) && SendLaw(s)
    ensures SendLaw(Apply(cfg, s, step))
  {
    SendLawMakesFresh(s);
    DoneWeighsNothing();
    var s' := Apply(cfg, s, step);
    forall ch: nat ensures Senders(s', ch) == (if IsEmpty(s', ch) then 1 else 0) {
      hide Apply, Before, After, Spawned, RightWeight, Occurrences;
      assert Senders(s, ch) == (if IsEmpty(s, ch) then 1 else 0);
      StepTotals(cfg, s, step, RightWeight(ch));
      RightsDelta(cfg, s, step, ch);
    }
  }

  // ---- Receivers -------------------------------------------------------------------------

  lemma OneWaits(s: System, t: nat, ch: nat)
    requires At(s, t) && WaitLaw(s) && ch in TaskWaits(s.tasks[t])
    ensures IsPending(s, ch) && Total(s.tasks, WaitWeight(ch)) == 1
  {
    OccursIff(TaskWaits(s.tasks[t]), ch);
    TotalUpdate(s.tasks, t, Done, WaitWeight(ch));
  }

  /** What a step does to the receivers of `ch`. */
  ghost predicate WaitsBounded(cfg: Config, s: System, step: Step, ch: nat)
    requires Enabled(s, step)
  {
    var s' := Apply(cfg, s, step);
    var gain := WaitWeight(ch)(After(cfg, s, step)) + WaitWeight(ch)(Spawned(cfg, s, step));
    var loss := WaitWeight(ch)(Before(cfg, s, step));
    || (gain <= loss && (IsPending(s, ch) ==> IsPending(s', ch)))
    || (gain == 0 && loss == 1)
    || (gain == 1 && loss == 0 && !IsPending(s, ch) && IsPending(s', ch))
  }

  lemma WaitsDeltaCancel(cfg: Config, s: System, step: Step, ch: nat)
    requires Enabled(s, step) && (step.CancelWait? || step.Receive? || step.Cancel?)
    ensures WaitsBounded(cfg, s, step, ch)
  {
    hide Occurrences, Without;
    var k := s.tasks[step.t];
    OccurrencesOne(k.ch, ch);
    assert TaskWaits(k) == [k.ch];
    if step.Cancel? {
      assert After(cfg, s, step) == Cancelled(k.ch) && TaskWaits(Cancelled(k.ch)) == [k.ch];
    } else {
      assert TaskWaits(After(cfg, s, step)) == [];
    }
  }

  lemma WaitsDeltaSpawn(cfg: Config, s: System, step: Step, ch: nat)
    requires Enabled(s, step) && OnlySpawns(step)
    ensures WaitsBounded(cfg, s, step, ch)
  {
    hide Occurrences, Eviction;
    OccurrencesOne(|s.chans|, ch);
  }

  lemma WaitsDeltaMove(cfg: Config, s: System, step: Step, ch: nat)
    requires Enabled(s, step) && !OnlySpawns(step) && !step.CancelWait? && !step.Receive? && !step.Cancel?
    ensures WaitsBounded(cfg, s, step, ch)
  {
    hide Occurrences;
    OccurrencesOne(0, ch);
  }

  lemma WaitsDeltaOther(cfg: Config, s: System, step: Step, ch: nat)
    requires Enabled(s, step) && !step.CancelWait? && !step.Receive? && !step.Cancel?
    ensures WaitsBounded(cfg, s, step, ch)
  {
    hide WaitsBounded;
    if OnlySpawns(step) {
      WaitsDeltaSpawn(cfg, s, step, ch);
    } else {
      WaitsDeltaMove(cfg, s, step, ch);
    }
  }

  lemma WaitsStep(cfg: Config, s: System, step: Step, ch: nat)
    requires Enabled(s, step) && Total(s.tasks, WaitWeight(ch)) <= (if IsPending(s, ch) then 1 else 0)
    ensures var s' := Apply(cfg, s, step); Total(s'.tasks, WaitWeight(ch)) <= (if IsPending(s', ch) then 1 else 0)
  {
    DoneWeighsNothing();
    hide Apply, Before, After, Spawned, WaitWeight, Occurrences, Total, IsPending;
    StepTotals(cfg, s, step, WaitWeight(ch));
    if step.CancelWait? || step.Receive? || step.Cancel? {
      WaitsDeltaCancel(cfg, s, step, ch);
    } else {
      WaitsDeltaOther(cfg, s, step, ch);
    }
  }

  lemma WaitLawStep(cfg: Config, s: System, step: Step)
    requires Enabled(s, step) && WaitLaw(s)
    ensures WaitLaw(Apply(cfg, s, step))
  {
    hide Apply, Total, IsPending, WaitWeight, Enabled;
    forall ch: nat
      ensures var s' := Apply(cfg, s, step); Total(s'.tasks, WaitWeight(ch)) <= (if IsPending(s', ch) then 1 else 0)
    {
      WaitsStep(cfg, s, step, ch);
    }
  }

  // ---- All runs -----------------------------------------------------------------------------

  lemma SmallLawsStep(cfg: Config, s: System, step: Step)
    requires Enabled(s, step) && Shut(s.p) && s.p.open <= s.replaced + Limit(cfg)
    ensures Shut(Apply(cfg, s, step).p)
    ensures Apply(cfg, s, step).p.open <= Apply(cfg, s, step).replaced + Limit(cfg)
  {
    if step.CancelWait? {
      assert s.p.waiters == [] ==> Without(s.p.waiters, s.tasks[step.t].ch) == [];
    } else if step.Evict? {
      assert s.p.idle == [] ==> Eviction(s.p.idle, step.stale, cfg.minIdle) == ([], []);
    }
  }

  /** Every step of every goroutine keeps every law. */
  lemma StepKeepsInv(cfg: Config, s: System, step: Step)
    requires Inv(cfg, s) && Enabled(s, step)
    ensures Inv(cfg, Apply(cfg, s, step))
  {
    hide Apply, SendLaw, OwnershipLaw, WaitLaw, Counted;
    InUseStep(cfg, s, step);
    OpenStep(cfg, s, step);
    OwnershipStep(cfg, s, step);
    SendLawStep(cfg, s, step);
    WaitLawStep(cfg, s, step);
    SmallLawsStep(cfg, s, step);
  }

  /** The state after a run from the initial pool; None when a step of it could not happen. */
  function Run(cfg: Config, steps: seq<Step>): Option<System>
  {
    if steps == [] then Some(Init(cfg))
    else
      match Run(cfg, steps[..|steps| - 1])
      case None => None
      case Some(s) => if Enabled(s, steps[|steps| - 1]) then Some(Apply(cfg, s, steps[|steps| - 1])) else None
  }

  lemma {:induction false} RunsKeepInv(cfg: Config, steps: seq<Step>)
    requires Run(cfg, steps).Some?
    ensures Inv(cfg, Run(cfg, steps).value)
  {
    if steps == [] {
      InitInv(cfg);
    } else {
      hide Inv, Apply, Enabled, Init;
      RunsKeepInv(cfg, steps[..|steps| - 1]);
      StepKeepsInv(cfg, Run(cfg, steps[..|steps| - 1]).value, steps[|steps| - 1]);
    }
  }

  /**
   The laws of every run: who is counted in `inUse`; every connection in exactly one place;
   `open` exact up to the two ways it drifts; `open` within the limit unless replacements
   were dialled.
  */
  lemma RunsObeyLaws(cfg: Config, steps: seq<Step>)
    requires Run(cfg, steps).Some?
    ensures var s := Run(cfg, steps).value;
      && s.p.inUse == Total(s.tasks, InUseWeight)
      && (forall c: nat :: c < s.nextConn ==> Places(s, c) + Occurrences(s.closedConns, c) == 1)
      && s.p.open + s.lost == Counted(s) + s.abandoned
      && (s.lost == 0 && s.abandoned == 0 ==> s.p.open == Counted(s))
      && (s.replaced == 0 && cfg.minIdle <= cfg.maxConns ==> s.p.open <= cfg.maxConns)
  {
    RunsKeepInv(cfg, steps);
  }

  lemma HolderOfRight(s: System, t: nat, ch: nat)
    requires At(s, t) && ch in TaskRights(s.tasks[t]) && SendLaw(s)
    ensures IsEmpty(s, ch)
  {
    OccursIff(TaskRights(s.tasks[t]), ch);
    TotalUpdate(s.tasks, t, Done, RightWeight(ch));
    assert Senders(s, ch) > 0;
  }

  /** A goroutine about to send finds its channel empty, in every run: sends never block. */
  lemma SendsNeverBlock(cfg: Config, steps: seq<Step>, t: nat)
    requires Run(cfg, steps).Some?
    requires var s := Run(cfg, steps).value; At(s, t) && ReadyToSend(s.tasks[t])
    ensures Enabled(Run(cfg, steps).value, Send(t))
  {
    RunsKeepInv(cfg, steps);
    var s := Run(cfg, steps).value;
    HolderOfRight(s, t, SendTarget(s.tasks[t]));
  }

  /**
   A waiter without an answer is where exactly one sender can find it: in the waiter list or with
   one goroutine, and after Drain or Close with a goroutine. Whether someone will come to look
   for it in the list is another matter.
  */
  lemma OneSenderEach(cfg: Config, steps: seq<Step>, t: nat)
    requires Run(cfg, steps).Some?
    requires var s := Run(cfg, steps).value; At(s, t) && s.tasks[t].Waiting?
    ensures var s := Run(cfg, steps).value;
            var ch := s.tasks[t].ch;
      && ch < |s.chans|
      && (s.chans[ch].Empty? ==> Senders(s, ch) == 1)
      && (!s.chans[ch].Empty? ==> Enabled(s, Receive(t)))
      && (s.chans[ch].Empty? && (s.p.closed || s.p.draining) ==> Total(s.tasks, RightWeight(ch)) == 1)
  {
    RunsKeepInv(cfg, steps);
    var s := Run(cfg, steps).value;
    var ch := s.tasks[t].ch;
    OneWaits(s, t, ch);
    assert Senders(s, ch) == (if IsEmpty(s, ch) then 1 else 0);
  }

  // ---- The reaper ---------------------------------------------------------------------------

  predicate IsSubsequence(xs: seq<nat>, ys: seq<nat>)
  {
    if xs == [] then true
    else if ys == [] then false
    else if xs[|xs| - 1] == ys[|ys| - 1] then IsSubsequence(xs[..|xs| - 1], ys[..|ys| - 1])
    else IsSubsequence(xs, ys[..|ys| - 1])
  }

  lemma {:induction false} DropLastKeeps(xs: seq<nat>, ys: seq<nat>)
    requires xs != [] && IsSubsequence(xs, ys)
    ensures IsSubsequence(xs[..|xs| - 1], ys)
  {
    if xs[|xs| - 1] == ys[|ys| - 1] {
      SkipLastKeeps(xs[..|xs| - 1], ys);
    } else {
      DropLastKeeps(xs, ys[..|ys| - 1]);
      SkipLastKeeps(xs[..|xs| - 1], ys);
    }
  }

  lemma {:induction false} SkipLastKeeps(xs: seq<nat>, ys: seq<nat>)
    requires ys != [] && IsSubsequence(xs, ys[..|ys| - 1])
    ensures IsSubsequence(xs, ys)
  {
    if xs != [] && xs[|xs| - 1] == ys[|ys| - 1] {
      DropLastKeeps(xs, ys[..|ys| - 1]);
    }
  }

  /**
   Eviction keeps the order of the stack, keeps every connection that is not stale, drops only
   stale ones, and never goes below MinIdle on its own account; and a stale connection stays only
   where it is needed, among the first MinIdle that are kept.
  */
  lemma {:induction false} EvictionKeeps(idle: seq<nat>, stale: set<nat>, minIdle: nat)
    ensures EvictionLaw(idle, stale, minIdle)
    ensures SparesOnly(Eviction(idle, stale, minIdle).0, stale, minIdle)
  {
    if idle != [] {
      EvictionKeeps(idle[..|idle| - 1], stale, minIdle);
      EvictionKeepsOne(idle, stale, minIdle);
      EvictionDropsOne(idle, stale, minIdle);
      hide EvictionLaw, Eviction;
    }
  }

  lemma EvictionLast(idle: seq<nat>, stale: set<nat>, minIdle: nat)
    requires idle != []
    ensures var keep := Eviction(idle[..|idle| - 1], stale, minIdle).0;
            var e := idle[|idle| - 1];
            Eviction(idle, stale, minIdle).0 == if e in stale && |keep| + 1 > minIdle then keep else keep + [e]
  {
  }

  ghost predicate SparesOnly(keep: seq<nat>, stale: set<nat>, minIdle: nat)
  {
    forall i :: minIdle <= i < |keep| ==> keep[i] !in stale
  }

  lemma EvictionDropsOne(idle: seq<nat>, stale: set<nat>, minIdle: nat)
    requires idle != [] && SparesOnly(Eviction(idle[..|idle| - 1], stale, minIdle).0, stale, minIdle)
    ensures SparesOnly(Eviction(idle, stale, minIdle).0, stale, minIdle)
  {
    hide Eviction;
    EvictionLast(idle, stale, minIdle);
  }

  ghost predicate EvictionLaw(idle: seq<nat>, stale: set<nat>, minIdle: nat)
  {
    var (keep, drop) := Eviction(idle, stale, minIdle);
    && IsSubsequence(keep, idle)
    && (forall e :: e in drop ==> e in stale)
    && (forall e :: e in idle && e !in stale ==> e in keep)
    && |keep| >= (if minIdle < |idle| then minIdle else |idle|)
  }

  lemma EvictionKeepsOne(idle: seq<nat>, stale: set<nat>, minIdle: nat)
    requires idle != [] && EvictionLaw(idle[..|idle| - 1], stale, minIdle)
    ensures EvictionLaw(idle, stale, minIdle)
  {
    var rest := idle[..|idle| - 1];
    var e := idle[|idle| - 1];
    var (keep, drop) := Eviction(rest, stale, minIdle);
    var (keep', drop') := Eviction(idle, stale, minIdle);
    assert idle == rest + [e];
    if e in stale && |keep| + 1 > minIdle {
      assert keep' == keep && drop' == drop + [e];
      SkipLastKeeps(keep, idle);
    } else {
      assert keep' == keep + [e] && drop' == drop;
      assert keep'[..|keep|] == keep;
    }
  }
}
