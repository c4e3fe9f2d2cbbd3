/**
 What can go wrong in the pool (pgz/pool/pool.go), and exactly when: connections above MaxConns,
 connections lost in a channel, waiters that are told the pool is closed, and waiters that no
 one will answer. Each is settled for one step first and then for whole runs.
*/
module PoolRuns {
  import opened Bytes
  import opened PoolModel

  // ---- Steps of a run ---------------------------------------------------------------------

  /** A step of the run is of this kind, in the state it was taken in. */
  ghost predicate Happens(cfg: Config, steps: seq<Step>, kind: (System, Step) -> bool)
  {
    exists i :: 0 <= i < |steps| && HappensAt(cfg, steps, i, kind)
  }

  predicate HappensAt(cfg: Config, steps: seq<Step>, i: nat, kind: (System, Step) -> bool)
    requires i < |steps|
  {
    Run(cfg, steps[..i]).Some? && kind(Run(cfg, steps[..i]).value, steps[i])
  }

  lemma LastStep(cfg: Config, steps: seq<Step>)
    requires steps != [] && Run(cfg, steps).Some?
    ensures var s := Run(cfg, steps[..|steps| - 1]);
            s.Some? && Enabled(s.value, steps[|steps| - 1])
            && Run(cfg, steps) == Some(Apply(cfg, s.value, steps[|steps| - 1]))
  {
  }

  lemma HappensLast(cfg: Config, steps: seq<Step>, kind: (System, Step) -> bool)
    requires steps != [] && Run(cfg, steps[..|steps| - 1]).Some?
    ensures Happens(cfg, steps, kind)
       <==> Happens(cfg, steps[..|steps| - 1], kind) || kind(Run(cfg, steps[..|steps| - 1]).value, steps[|steps| - 1])
  {
    hide Run;
    var last := |steps| - 1;
    forall i | 0 <= i < last ensures HappensAt(cfg, steps, i, kind) <==> HappensAt(cfg, steps[..last], i, kind) {
      assert steps[..last][..i] == steps[..i];
    }
    if kind(Run(cfg, steps[..last]).value, steps[last]) {
      assert HappensAt(cfg, steps, last, kind);
    }
    if Happens(cfg, steps[..last], kind) {
      var i :| 0 <= i < last && HappensAt(cfg, steps[..last], i, kind);
      assert HappensAt(cfg, steps, i, kind);
    }
  }

  // ---- MaxConns ------------------------------------------------------------------------------

  /** A replacement connection enters an open pool that is full. */
  predicate Overbooks(cfg: Config, s: System, step: Step)
  {
    step.Register? && !s.p.closed && s.p.open == cfg.maxConns
  }

  /** A step takes `open` above MaxConns exactly when it overbooks. */
  lemma OverLimitStep(cfg: Config, s: System, step: Step)
    requires Enabled(s, step) && s.p.open <= cfg.maxConns
    ensures Apply(cfg, s, step).p.open > cfg.maxConns <==> Overbooks(cfg, s, step)
  {
  }

  /** Some state of the run has more than MaxConns connections open. */
  ghost predicate EverOver(cfg: Config, steps: seq<Step>)
  {
    exists i :: 0 <= i <= |steps| && OverAt(cfg, steps, i)
  }

  predicate OverAt(cfg: Config, steps: seq<Step>, i: nat)
    requires i <= |steps|
  {
    Run(cfg, steps[..i]).Some? && Run(cfg, steps[..i]).value.p.open > cfg.maxConns
  }

  lemma EverOverLast(cfg: Config, steps: seq<Step>)
    requires steps != []
    ensures EverOver(cfg, steps) <==> EverOver(cfg, steps[..|steps| - 1]) || OverAt(cfg, steps, |steps|)
  {
    hide Run;
    var last := |steps| - 1;
    forall i | 0 <= i <= last ensures OverAt(cfg, steps, i) <==> OverAt(cfg, steps[..last], i) {
      assert steps[..last][..i] == steps[..i];
    }
    if EverOver(cfg, steps[..last]) {
      var i :| 0 <= i <= last && OverAt(cfg, steps[..last], i);
      assert OverAt(cfg, steps, i);
    }
  }

  /** In every run: MaxConns is exceeded at some point if and only if a replacement overbooks. */
  lemma {:induction false} OverLimitIff(cfg: Config, steps: seq<Step>)
    requires Run(cfg, steps).Some? && cfg.minIdle <= cfg.maxConns
    ensures EverOver(cfg, steps) <==> Happens(cfg, steps, (s, step) => Overbooks(cfg, s, step))
  {
    var kind := (s, step) => Overbooks(cfg, s, step);
    assert steps[..|steps|] == steps;
    if steps == [] {
      RunNothing(cfg);
    } else {
      var last := |steps| - 1;
      LastStep(cfg, steps);
      OverLimitIff(cfg, steps[..last]);
      HappensLast(cfg, steps, kind);
      EverOverLast(cfg, steps);
      if !EverOver(cfg, steps[..last]) {
        assert steps[..last][..last] == steps[..last];
        assert !OverAt(cfg, steps[..last], last);
        OverLimitStep(cfg, Run(cfg, steps[..last]).value, steps[last]);
      }
    }
  }

  lemma RunNothing(cfg: Config)
    ensures Run(cfg, []) == Some(Init(cfg))
  {
  }

  // ---- Connections lost in a channel -----------------------------------------------------------

  /** A connection sits in a channel that no one will read. */
  predicate Orphaned(s: System, ch: nat)
  {
    ch < |s.chans| && s.chans[ch].FullConn? && Total(s.tasks, WaitWeight(ch)) == 0
  }

  /** The receiver leaves a full channel, or a connection is sent to a receiver that has left. */
  predicate Orphans(s: System, step: Step, ch: nat)
  {
    && Enabled(s, step)
    && match step
       case CancelWait(t) => s.tasks[t].ch == ch && ch < |s.chans| && s.chans[ch].FullConn?
       case Send(t) => s.tasks[t].Sending? && s.tasks[t].ch == ch && Total(s.tasks, WaitWeight(ch)) == 0
       case _ => false
  }

  lemma WaitsAfter(cfg: Config, s: System, step: Step, ch: nat)
    requires Enabled(s, step)
    ensures Total(Apply(cfg, s, step).tasks, WaitWeight(ch)) + WaitWeight(ch)(Before(cfg, s, step))
         == Total(s.tasks, WaitWeight(ch)) + WaitWeight(ch)(After(cfg, s, step)) + WaitWeight(ch)(Spawned(cfg, s, step))
  {
    DoneWeighsNothing();
    hide Apply, Before, After, Spawned, WaitWeight;
    StepTotals(cfg, s, step, WaitWeight(ch));
  }

  /** Who stops waiting for `ch`: its receiver, by receiving or by leaving. */
  lemma WaitsLost(cfg: Config, s: System, step: Step, ch: nat)
    requires Enabled(s, step)
    ensures WaitWeight(ch)(Before(cfg, s, step)) > WaitWeight(ch)(After(cfg, s, step)) + WaitWeight(ch)(Spawned(cfg, s, step))
       ==> (step.Receive? || step.CancelWait?) && s.tasks[step.t].ch == ch
  {
    hide Apply, Occurrences, Spawned;
    if !OnlySpawns(step) {
      var k := s.tasks[step.t];
      if k.Waiting? || k.Cancelled? {
        OccurrencesOne(k.ch, ch);
        assert TaskWaits(k) == [k.ch];
        if step.Cancel? {
          CancelKeepsWaiting(cfg, s, step);
        }
      } else {
        assert TaskWaits(k) == [];
        OccurrencesOne(0, ch);
      }
    } else {
      DoneWeighsNothing();
    }
  }

  lemma CancelKeepsWaiting(cfg: Config, s: System, step: Step)
    requires Enabled(s, step) && step.Cancel?
    ensures TaskWaits(After(cfg, s, step)) == [s.tasks[step.t].ch]
  {
  }

  lemma WaitsGone(cfg: Config, s: System, step: Step, ch: nat)
    requires Enabled(s, step) && (step.Receive? || step.CancelWait? || step.Send?)
    ensures WaitWeight(ch)(After(cfg, s, step)) == 0 && Spawned(cfg, s, step) == Done
    ensures step.Send? ==> WaitWeight(ch)(Before(cfg, s, step)) == 0
  {
  }

  /** Only a send fills a channel, and only a receive empties a full one. */
  lemma FullChannels(cfg: Config, s: System, step: Step, ch: nat)
    requires Enabled(s, step) && SendLaw(s)
    ensures var chans := Apply(cfg, s, step).chans;
      && (ch < |s.chans| ==> ch < |chans|)
      && (ch < |s.chans| && s.chans[ch].FullConn? ==>
            if step.Receive? && s.tasks[step.t].ch == ch then chans[ch] == Taken else chans[ch] == s.chans[ch])
      && (ch < |chans| && chans[ch].FullConn? && !(ch < |s.chans| && s.chans[ch].FullConn?)
          <==> step.Send? && s.tasks[step.t].Sending? && s.tasks[step.t].ch == ch)
  {
    SendLawMakesFresh(s);
    ChannelShape(cfg, s, step);
  }

  /** A step orphans a channel exactly when it is one of the two kinds above; an orphan stays one. */
  lemma OrphanedStep(cfg: Config, s: System, step: Step, ch: nat)
    requires Inv(cfg, s) && Enabled(s, step)
    ensures Orphaned(Apply(cfg, s, step), ch) <==> Orphaned(s, ch) || Orphans(s, step, ch)
    ensures Orphaned(s, ch) ==> Apply(cfg, s, step).chans[ch] == s.chans[ch]
  {
    hide Apply, SendLaw, OwnershipLaw, WaitWeight, Total, Counted, Shut, After, Spawned, Before, IsPending, TaskWaits;
    FullChannels(cfg, s, step, ch);
    WaitsAfter(cfg, s, step, ch);
    WaitsLost(cfg, s, step, ch);
    DoneWeighsNothing();
    if step.Receive? || step.CancelWait? || step.Send? {
      WaitsGone(cfg, s, step, ch);
    }
    if (step.Receive? || step.CancelWait?) && s.tasks[step.t].ch == ch {
      OwnWait(s, step.t, ch);
      OneWaits(s, step.t, ch);
      OwnWaitIsBefore(cfg, s, step);
    } else if Orphaned(s, ch) {
      NoGain(cfg, s, step, ch);
    }
  }

  lemma OwnWait(s: System, t: nat, ch: nat)
    requires At(s, t) && (s.tasks[t].Waiting? || s.tasks[t].Cancelled?) && s.tasks[t].ch == ch
    ensures ch in TaskWaits(s.tasks[t]) && WaitWeight(ch)(s.tasks[t]) == 1
  {
    OccurrencesOne(ch, ch);
    assert TaskWaits(s.tasks[t]) == [ch];
  }

  lemma OwnWaitIsBefore(cfg: Config, s: System, step: Step)
    requires Enabled(s, step) && (step.Receive? || step.CancelWait?)
    ensures Before(cfg, s, step) == s.tasks[step.t]
  {
  }

  lemma WaitsShape(cfg: Config, s: System, step: Step)
    requires Enabled(s, step)
    ensures !step.Cancel? ==> TaskWaits(After(cfg, s, step)) == []
    ensures step.Cancel? ==> TaskWaits(After(cfg, s, step)) == TaskWaits(Before(cfg, s, step))
    ensures TaskWaits(Spawned(cfg, s, step)) == [] || TaskWaits(Spawned(cfg, s, step)) == [|s.chans|]
    ensures step.Cancel? ==> Spawned(cfg, s, step) == Done
  {
    hide Eviction, Without;
  }

  /** No one starts waiting for a channel that exists already. */
  lemma NoGain(cfg: Config, s: System, step: Step, ch: nat)
    requires Enabled(s, step) && ch < |s.chans|
    ensures WaitWeight(ch)(After(cfg, s, step)) + WaitWeight(ch)(Spawned(cfg, s, step)) <= WaitWeight(ch)(Before(cfg, s, step))
  {
    hide Apply, Before, After, Spawned, Occurrences, TaskWaits;
    WaitsShape(cfg, s, step);
    OccurrencesOne(|s.chans|, ch);
    DoneWeighsNothing();
  }

  /** In every run: a channel ends up orphaned if and only if some step of the run orphans it. */
  lemma {:induction false} OrphanedIff(cfg: Config, steps: seq<Step>, ch: nat)
    requires Run(cfg, steps).Some?
    ensures Orphaned(Run(cfg, steps).value, ch) <==> Happens(cfg, steps, (s, step) => Orphans(s, step, ch))
  {
    hide Inv, Apply, Enabled, Orphaned, Orphans;
    if steps == [] {
      RunNothing(cfg);
      NothingOrphaned(cfg, ch);
    } else {
      var last := |steps| - 1;
      LastStep(cfg, steps);
      OrphanedIff(cfg, steps[..last], ch);
      HappensLast(cfg, steps, (s, step) => Orphans(s, step, ch));
      RunsKeepInv(cfg, steps[..last]);
      OrphanedStep(cfg, Run(cfg, steps[..last]).value, steps[last], ch);
    }
  }

  lemma NothingOrphaned(cfg: Config, ch: nat)
    ensures !Orphaned(Init(cfg), ch)
  {
  }

  /** ... and nothing that happens later gets it back: no run ever moves or closes it. */
  lemma {:induction false} OrphansStay(cfg: Config, steps: seq<Step>, more: seq<Step>, ch: nat)
    requires Run(cfg, steps).Some? && Orphaned(Run(cfg, steps).value, ch) && Run(cfg, steps + more).Some?
    ensures Orphaned(Run(cfg, steps + more).value, ch)
    ensures Run(cfg, steps + more).value.chans[ch] == Run(cfg, steps).value.chans[ch]
  {
    hide Run, Orphaned, Orphans, Apply, Enabled, Inv;
    if more == [] {
      assert steps + more == steps;
    } else {
      var last := |more| - 1;
      assert (steps + more)[..|steps + more| - 1] == steps + more[..last];
      assert (steps + more)[|steps + more| - 1] == more[last];
      LastStep(cfg, steps + more);
      OrphansStay(cfg, steps, more[..last], ch);
      RunsKeepInv(cfg, steps + more[..last]);
      OrphanedStep(cfg, Run(cfg, steps + more[..last]).value, more[last], ch);
    }
  }

  // ---- Waiters that are told the pool is closed ---------------------------------------------------

  /** The channels a goroutine is going to send nil on. */
  function NilRights(k: Task): seq<nat>
  {
    match k
    case ReplaceFailed(ch) => [ch]
    case Refused(ch, _) => [ch]
    case Draining(_, _, chs) => chs
    case Waking(chs) => chs
    case ShuttingDown(chs, _) => chs
    case _ => []
  }

  function NilWeight(ch: nat): Task -> nat { (k: Task) => Occurrences(NilRights(k), ch) }

  predicate NilIn(s: System, ch: nat) { ch < |s.chans| && (s.chans[ch].FullNil? || s.chans[ch].TakenNil?) }

  /** How many nils are on their way to `ch`, in it, or taken from it. */
  function Nils(s: System, ch: nat): nat { Total(s.tasks, NilWeight(ch)) + (if NilIn(s, ch) then 1 else 0) }

  /** Drain or Close takes the waiter, its replacement dial fails, or the pool closes during that dial. */
  predicate Refuses(s: System, step: Step, ch: nat)
  {
    && Enabled(s, step)
    && match step
       case Drain => !s.p.closed && ch in s.p.waiters
       case Close => !s.p.closed && ch in s.p.waiters
       case ReplaceErr(t) => s.tasks[t].ch == ch
       case Register(t) => s.p.closed && s.tasks[t].ch == ch
       case _ => false
  }

  function NewNils(s: System, step: Step, ch: nat): nat
    requires Enabled(s, step)
  {
    if step.Drain? || step.Close? then (if s.p.closed then 0 else Occurrences(s.p.waiters, ch))
    else if Refuses(s, step, ch) then 1 else 0
  }

  lemma NilSpawned(cfg: Config, s: System, step: Step)
    requires Enabled(s, step) && !step.Send?
    ensures NilRights(Spawned(cfg, s, step)) ==
            (if (step.Drain? || step.Close?) && !s.p.closed then s.p.waiters else [])
  {
    hide Eviction, Without, AfterClose, AfterReceive;
  }

  lemma NilMoved(cfg: Config, s: System, step: Step)
    requires Enabled(s, step) && !step.Send?
    ensures NilRights(After(cfg, s, step)) ==
            if step.ReplaceErr? || (step.Register? && s.p.closed) then [s.tasks[step.t].ch]
            else NilRights(Before(cfg, s, step))
    ensures step.ReplaceErr? || step.Register? ==> NilRights(Before(cfg, s, step)) == []
  {
    hide Eviction, Without;
    if OnlySpawns(step) {
      hide Apply;
    }
  }

  lemma NilShapeSend(k: Task, ch: nat)
    requires ReadyToSend(k)
    ensures NilWeight(ch)(k) == NilWeight(ch)(AfterSend(k).1) + (if SendTarget(k) == ch && !k.Sending? then 1 else 0)
  {
    hide Occurrences;
    OccurrencesOne(SendTarget(k), ch);
    match k
    case Waking(chs) => OccurrencesFirst(chs, ch);
    case ShuttingDown(chs, _) => OccurrencesFirst(chs, ch);
    case _ =>
  }

  predicate SendsNil(s: System, step: Step, ch: nat)
    requires Enabled(s, step)
  {
    step.Send? && !s.tasks[step.t].Sending? && SendTarget(s.tasks[step.t]) == ch
  }

  lemma NilChannels(cfg: Config, s: System, step: Step, ch: nat)
    requires Enabled(s, step) && SendLaw(s)
    ensures NilIn(Apply(cfg, s, step), ch)
       <==> NilIn(s, ch) || SendsNil(s, step, ch)
    ensures SendsNil(s, step, ch) ==> !NilIn(s, ch)
  {
    SendLawMakesFresh(s);
    ChannelShape(cfg, s, step);
    hide SendLaw;
    if TouchedChannel(s, step).None? {
      hide Apply;
    }
  }

  lemma NilDelta(cfg: Config, s: System, step: Step, ch: nat)
    requires Enabled(s, step)
    ensures NilWeight(ch)(After(cfg, s, step)) + NilWeight(ch)(Spawned(cfg, s, step))
         == NilWeight(ch)(Before(cfg, s, step)) + NewNils(s, step, ch) - (if SendsNil(s, step, ch) then 1 else 0)
  {
    if step.Send? {
      NilShapeSend(s.tasks[step.t], ch);
      SentTask(cfg, s, step);
      assert NilWeight(ch)(Done) == 0;
    } else {
      hide Apply, Before, After, Spawned, Occurrences, NilRights;
      NilSpawned(cfg, s, step);
      NilMoved(cfg, s, step);
      OccurrencesOne(0, ch);
      if step.ReplaceErr? || step.Register? {
        OccurrencesOne(s.tasks[step.t].ch, ch);
      }
    }
  }

  lemma SentTask(cfg: Config, s: System, step: Step)
    requires Enabled(s, step) && step.Send?
    ensures Before(cfg, s, step) == s.tasks[step.t] && Spawned(cfg, s, step) == Done
    ensures After(cfg, s, step) == AfterSend(s.tasks[step.t]).1
  {
  }

  lemma NilsStep(cfg: Config, s: System, step: Step, ch: nat)
    requires Inv(cfg, s) && Enabled(s, step)
    ensures Nils(Apply(cfg, s, step), ch) == Nils(s, ch) + NewNils(s, step, ch)
    ensures NewNils(s, step, ch) > 0 <==> Refuses(s, step, ch)
  {
    hide Apply, Before, After, Spawned, NilWeight, NilIn, Total, SendLaw, OwnershipLaw, WaitLaw, Counted;
    assert NilWeight(ch)(Done) == 0 by { DoneSendsNoNil(ch); }
    StepTotals(cfg, s, step, NilWeight(ch));
    NilDelta(cfg, s, step, ch);
    NilChannels(cfg, s, step, ch);
    OccursIff(s.p.waiters, ch);
  }

  lemma DoneSendsNoNil(ch: nat)
    ensures NilWeight(ch)(Done) == 0
  {
  }

  lemma {:induction false} NilsIff(cfg: Config, steps: seq<Step>, ch: nat)
    requires Run(cfg, steps).Some?
    ensures Nils(Run(cfg, steps).value, ch) > 0 <==> Happens(cfg, steps, (s, step) => Refuses(s, step, ch))
  {
    hide Inv, Apply, Enabled, Nils, Refuses, NewNils;
    if steps == [] {
      RunNothing(cfg);
      NoNils(cfg, ch);
    } else {
      var last := |steps| - 1;
      LastStep(cfg, steps);
      NilsIff(cfg, steps[..last], ch);
      HappensLast(cfg, steps, (s, step) => Refuses(s, step, ch));
      RunsKeepInv(cfg, steps[..last]);
      NilsStep(cfg, Run(cfg, steps[..last]).value, steps[last], ch);
    }
  }

  lemma NoNils(cfg: Config, ch: nat)
    ensures Nils(Init(cfg), ch) == 0
  {
  }

  lemma {:induction false} NilsAreRights(tasks: seq<Task>, ch: nat)
    ensures Total(tasks, NilWeight(ch)) <= Total(tasks, RightWeight(ch))
  {
    if tasks != [] {
      NilsAreRights(tasks[..|tasks| - 1], ch);
      NilIsRight(tasks[|tasks| - 1], ch);
    }
  }

  lemma NilIsRight(k: Task, ch: nat)
    ensures NilWeight(ch)(k) <= RightWeight(ch)(k)
  {
    hide Occurrences;
    OccurrencesOne(0, ch);
  }

  /**
   In every run: a caller whose wait is answered gets ErrClosed if and only if Drain or Close took
   it from the waiter list, its replacement dial failed, or the pool closed during that dial. In
   every other case it gets a connection.
  */
  lemma ErrClosedIff(cfg: Config, steps: seq<Step>, t: nat)
    requires Run(cfg, steps).Some? && Enabled(Run(cfg, steps).value, Receive(t))
    ensures var s := Run(cfg, steps).value;
            var ch := s.tasks[t].ch;
            var told := Apply(cfg, s, Receive(t)).tasks[t];
      && (told.ErrClosed? <==> Happens(cfg, steps, (s, step) => Refuses(s, step, ch)))
      && (!told.ErrClosed? ==> told == Received(s.chans[ch].conn))
  {
    hide Run, Inv, Refuses;
    var s := Run(cfg, steps).value;
    var ch := s.tasks[t].ch;
    NilsIff(cfg, steps, ch);
    RunsKeepInv(cfg, steps);
    if s.chans[ch].FullConn? {
      NoRightsLeft(cfg, s, ch);
      NilsAreRights(s.tasks, ch);
    }
  }

  lemma NoRightsLeft(cfg: Config, s: System, ch: nat)
    requires Inv(cfg, s) && !IsEmpty(s, ch)
    ensures Total(s.tasks, RightWeight(ch)) == 0 && ch !in s.p.waiters
  {
    assert Senders(s, ch) == 0;
    OccursIff(s.p.waiters, ch);
  }

  // ---- Waiters that no one will answer -----------------------------------------------------------

  /** A goroutine that will enter put or discard, and look at the waiter list there. */
  predicate WillLook(k: Task)
  {
    k.Dialing? || k.DialFailed? || k.RetireSlot? || k.Received? || k.Holding? || k.Discarded?
  }

  /** A goroutine that is going to send a connection on `ch`, or dials for it. */
  predicate Answers(k: Task, ch: nat) { (k.Sending? || k.Replacing? || k.Replaced?) && k.ch == ch }

  predicate OnTheWay(s: System, ch: nat)
  {
    (ch < |s.chans| && s.chans[ch].FullConn?) || exists i :: 0 <= i < |s.tasks| && Answers(s.tasks[i], ch)
  }

  predicate Listens(s: System, ch: nat) { exists i :: 0 <= i < |s.tasks| && s.tasks[i] == Waiting(ch) }

  /** A goroutine through which a queued waiter may get its turn: it has a connection or a slot, or soon will. */
  predicate Source(s: System, t: nat)
  {
    At(s, t) && (WillLook(s.tasks[t]) || (s.tasks[t].Waiting? && OnTheWay(s, s.tasks[t].ch)))
  }

  predicate Answerable(s: System) { exists t :: 0 <= t < |s.tasks| && Source(s, t) }

  predicate Open(p: Shared) { !p.closed && !p.draining }

  /**
   A step by which source `t` is lost while others wait: the replacement dial for it fails, it gives
   up while its connection is on the way, or it hands over to a waiter that has given up.
  */
  predicate Loses(s: System, step: Step, t: nat)
    requires Enabled(s, step) && At(s, t)
  {
    match step
    case ReplaceErr(r) => s.tasks[t] == Waiting(s.tasks[r].ch)
    case Cancel(r) => r == t
    case Release(r) => r == t && s.p.waiters != [] && !Listens(s, s.p.waiters[0])
    case Retire(r) => r == t && s.p.waiters != [] && !Listens(s, s.p.waiters[0])
    case _ => false
  }

  predicate Remains(s: System, step: Step)
    requires Enabled(s, step)
  {
    exists t :: 0 <= t < |s.tasks| && Source(s, t) && !Loses(s, step, t)
  }

  /** A new caller gets a connection or a slot. */
  predicate Gains(cfg: Config, s: System, step: Step)
  {
    step.Acquire? && (s.p.idle != [] || s.p.open < cfg.maxConns)
  }

  /** Other goroutines stay as they are. */
  lemma OthersStay(cfg: Config, s: System, step: Step, i: nat)
    requires Enabled(s, step) && At(s, i) && (OnlySpawns(step) || step.t != i)
    ensures At(Apply(cfg, s, step), i) && Apply(cfg, s, step).tasks[i] == s.tasks[i]
  {
  }

  lemma OnlyOneRight(s: System, i: nat, j: nat, ch: nat)
    requires SendLaw(s) && At(s, i) && At(s, j) && ch in TaskRights(s.tasks[i]) && ch in TaskRights(s.tasks[j])
    ensures i == j
  {
    assert Senders(s, ch) == (if IsEmpty(s, ch) then 1 else 0);
    if i != j {
      OccursIff(TaskRights(s.tasks[i]), ch);
      OccursIff(TaskRights(s.tasks[j]), ch);
      TotalUpdate(s.tasks, i, Done, RightWeight(ch));
      TotalUpdate(s.tasks[i := Done], j, Done, RightWeight(ch));
    }
  }

  lemma OnlyOneWaits(s: System, i: nat, j: nat, ch: nat)
    requires WaitLaw(s) && At(s, i) && At(s, j) && ch in TaskWaits(s.tasks[i]) && ch in TaskWaits(s.tasks[j])
    ensures i == j
  {
    if i != j {
      OccursIff(TaskWaits(s.tasks[i]), ch);
      OccursIff(TaskWaits(s.tasks[j]), ch);
      TotalUpdate(s.tasks, i, Done, WaitWeight(ch));
      TotalUpdate(s.tasks[i := Done], j, Done, WaitWeight(ch));
      OneWaits(s, i, ch);
    }
  }

  /** A connection on its way stays on its way until its receiver takes it or its dial fails. */
  lemma StaysOnTheWay(cfg: Config, s: System, step: Step, ch: nat)
    requires Inv(cfg, s) && Enabled(s, step) && OnTheWay(s, ch) && Open(Apply(cfg, s, step).p)
    requires !(step.Receive? && s.tasks[step.t].ch == ch) && !(step.ReplaceErr? && s.tasks[step.t].ch == ch)
    ensures OnTheWay(Apply(cfg, s, step), ch)
  {
    var s' := Apply(cfg, s, step);
    hide Inv;
    assert SendLaw(s) by { InvLaws(cfg, s); }
    hide SendLaw;
    FullChannels(cfg, s, step, ch);
    if !(ch < |s.chans| && s.chans[ch].FullConn?) {
      var i :| 0 <= i < |s.tasks| && Answers(s.tasks[i], ch);
      if OnlySpawns(step) || step.t != i {
        OthersStay(cfg, s, step, i);
        assert Answers(s'.tasks[i], ch);
      } else {
        AnswererMoves(cfg, s, step, ch);
      }
    }
  }

  lemma InvLaws(cfg: Config, s: System)
    requires Inv(cfg, s)
    ensures SendLaw(s) && WaitLaw(s)
  {
  }

  lemma AnswererMoves(cfg: Config, s: System, step: Step, ch: nat)
    requires Enabled(s, step) && !OnlySpawns(step) && Answers(s.tasks[step.t], ch) && Open(Apply(cfg, s, step).p)
    requires !step.ReplaceErr?
    ensures Answers(Apply(cfg, s, step).tasks[step.t], ch)
         || (ch < |Apply(cfg, s, step).chans| && Apply(cfg, s, step).chans[ch].FullConn?)
  {
  }

  /** What a source turns into when it is the one that moves. */
  lemma LookerMoves(cfg: Config, s: System, step: Step)
    requires Enabled(s, step) && !OnlySpawns(step) && WillLook(s.tasks[step.t]) && Open(Apply(cfg, s, step).p)
    requires Apply(cfg, s, step).p.waiters != []
    ensures var s' := Apply(cfg, s, step);
      if step.Release? || step.Retire? then s.p.waiters != [] && OnTheWay(s', s.p.waiters[0])
      else WillLook(s'.tasks[step.t])
  {
    var s' := Apply(cfg, s, step);
    if step.Release? {
      assert Answers(s'.tasks[step.t], s.p.waiters[0]);
    } else if step.Retire? {
      assert Answers(s'.tasks[|s.tasks|], s.p.waiters[0]);
    }
  }

  lemma SourceStays(cfg: Config, s: System, step: Step, t: nat)
    requires Inv(cfg, s) && Enabled(s, step) && Source(s, t) && !Loses(s, step, t)
    requires Open(Apply(cfg, s, step).p) && Apply(cfg, s, step).p.waiters != []
    ensures Answerable(Apply(cfg, s, step))
  {
    var s' := Apply(cfg, s, step);
    InvLaws(cfg, s);
    hide Inv, Apply, SendLaw, WaitLaw, OnTheWay, Enabled;
    if OnlySpawns(step) || step.t != t {
      OthersStay(cfg, s, step, t);
      if s.tasks[t].Waiting? {
        var ch := s.tasks[t].ch;
        if step.Receive? && s.tasks[step.t].ch == ch {
          ReceiverWaits(s, step);
          OnlyOneWaits(s, t, step.t, ch);
        }
        StaysOnTheWay(cfg, s, step, ch);
      }
      assert Source(s', t);
    } else if s.tasks[t].Waiting? {
      ReceiverLooks(cfg, s, step);
      assert Source(s', t);
    } else {
      LookerMoves(cfg, s, step);
      if step.Release? || step.Retire? {
        var i :| 0 <= i < |s.tasks| && s.tasks[i] == Waiting(s.p.waiters[0]);
        OthersStay(cfg, s, step, i);
        assert Source(s', i);
      } else {
        assert Source(s', t);
      }
    }
  }

  lemma ReceiverWaits(s: System, step: Step)
    requires Enabled(s, step) && step.Receive?
    ensures s.tasks[step.t].ch in TaskWaits(s.tasks[step.t])
  {
  }

  lemma ReceiverLooks(cfg: Config, s: System, step: Step)
    requires SendLaw(s) && Enabled(s, step) && !OnlySpawns(step) && s.tasks[step.t].Waiting?
    requires OnTheWay(s, s.tasks[step.t].ch) && !step.Cancel?
    ensures At(Apply(cfg, s, step), step.t) && WillLook(Apply(cfg, s, step).tasks[step.t])
  {
    var ch := s.tasks[step.t].ch;
    assert step.Receive?;
    if !s.chans[ch].FullConn? {
      var i :| 0 <= i < |s.tasks| && Answers(s.tasks[i], ch);
      HolderOfRight(s, i, ch);
    }
  }

  /** Where an answer on its way came from. */
  lemma CameOnTheWay(cfg: Config, s: System, step: Step, ch: nat)
    requires Inv(cfg, s) && Enabled(s, step) && OnTheWay(Apply(cfg, s, step), ch)
    ensures OnTheWay(s, ch) || ((step.Release? || step.Retire?) && s.p.waiters != [] && s.p.waiters[0] == ch)
    ensures step.ReplaceErr? ==> s.tasks[step.t].ch != ch
  {
    var s' := Apply(cfg, s, step);
    InvLaws(cfg, s);
    hide Inv, WaitLaw;
    if step.ReplaceErr? && s.tasks[step.t].ch == ch {
      StepKeepsInv(cfg, s, step);
      InvLaws(cfg, s');
      FailedHoldsRight(cfg, s, step);
      NotOnTheWay(s', step.t, ch);
    }
    hide SendLaw;
    FullChannels(cfg, s, step, ch);
    if !(ch < |s'.chans| && s'.chans[ch].FullConn?) {
      var i :| 0 <= i < |s'.tasks| && Answers(s'.tasks[i], ch);
      if i < |s.tasks| && (OnlySpawns(step) || step.t != i) {
        OthersStay(cfg, s, step, i);
        assert Answers(s.tasks[i], ch);
      } else {
        AnswererCame(cfg, s, step, i, ch);
      }
    } else if !(ch < |s.chans| && s.chans[ch].FullConn?) {
      assert Answers(s.tasks[step.t], ch);
    }
  }

  lemma FailedHoldsRight(cfg: Config, s: System, step: Step)
    requires Enabled(s, step) && step.ReplaceErr?
    ensures At(Apply(cfg, s, step), step.t) && Apply(cfg, s, step).tasks[step.t] == ReplaceFailed(s.tasks[step.t].ch)
  {
  }

  lemma NotOnTheWay(s: System, t: nat, ch: nat)
    requires SendLaw(s) && At(s, t) && s.tasks[t] == ReplaceFailed(ch)
    ensures !OnTheWay(s, ch)
  {
    assert ch in TaskRights(s.tasks[t]);
    HolderOfRight(s, t, ch);
    forall i | 0 <= i < |s.tasks| ensures !Answers(s.tasks[i], ch) {
      if Answers(s.tasks[i], ch) {
        OnlyOneRight(s, t, i, ch);
      }
    }
  }

  lemma AnswererCame(cfg: Config, s: System, step: Step, i: nat, ch: nat)
    requires Enabled(s, step) && At(Apply(cfg, s, step), i) && Answers(Apply(cfg, s, step).tasks[i], ch)
    requires i >= |s.tasks| || (!OnlySpawns(step) && step.t == i)
    ensures OnTheWay(s, ch) || ((step.Release? || step.Retire?) && s.p.waiters != [] && s.p.waiters[0] == ch)
  {
    if step.ReplaceOk? || step.Register? {
      assert Answers(s.tasks[step.t], ch);
    }
  }

  /** A goroutine that moves into a place where it will look came from one, or was a receiver. */
  lemma LookerCame(cfg: Config, s: System, step: Step, i: nat)
    requires Enabled(s, step) && At(Apply(cfg, s, step), i) && WillLook(Apply(cfg, s, step).tasks[i])
    requires i >= |s.tasks| || (!OnlySpawns(step) && step.t == i)
    ensures i < |s.tasks| ==>
              && !step.Release? && !step.Retire? && !step.Cancel? && !step.ReplaceErr?
              && (WillLook(s.tasks[i]) || (s.tasks[i].Waiting? && s.tasks[i].ch < |s.chans| && s.chans[s.tasks[i].ch].FullConn?))
    ensures i >= |s.tasks| ==> Gains(cfg, s, step)
  {
  }

  /** A receiver that is new, or has just moved, is a newly queued one. */
  lemma ReceiverCame(cfg: Config, s: System, step: Step, i: nat)
    requires Enabled(s, step) && At(Apply(cfg, s, step), i) && Apply(cfg, s, step).tasks[i].Waiting?
    requires i >= |s.tasks| || (!OnlySpawns(step) && step.t == i)
    ensures step.Acquire? && Apply(cfg, s, step).tasks[i].ch == |s.chans|
  {
  }

  lemma NothingForNew(s: System)
    requires SendLaw(s)
    ensures !OnTheWay(s, |s.chans|)
  {
    forall i | 0 <= i < |s.tasks| ensures !Answers(s.tasks[i], |s.chans|) {
      if Answers(s.tasks[i], |s.chans|) {
        HolderOfRight(s, i, |s.chans|);
      }
    }
  }

  lemma SourceCame(cfg: Config, s: System, step: Step, t: nat)
    requires Inv(cfg, s) && Enabled(s, step) && Source(Apply(cfg, s, step), t)
    ensures Remains(s, step) || Gains(cfg, s, step)
  {
    var s' := Apply(cfg, s, step);
    InvLaws(cfg, s);
    hide Inv, Apply, SendLaw, WaitLaw, OnTheWay, Enabled;
    var k := s'.tasks[t];
    if t < |s.tasks| && (OnlySpawns(step) || step.t != t) {
      OthersStay(cfg, s, step, t);
      if WillLook(k) {
        assert !Loses(s, step, t);
      } else {
        CameOnTheWay(cfg, s, step, k.ch);
        if OnTheWay(s, k.ch) {
          assert !Loses(s, step, t);
        } else {
          assert Listens(s, k.ch);
          HandsOver(s, step);
          assert !Loses(s, step, step.t);
        }
      }
    } else if WillLook(k) {
      LookerCame(cfg, s, step, t);
      if t < |s.tasks| {
        assert Source(s, t) by { FullIsOnTheWay(s, t); }
        assert !Loses(s, step, t);
      }
    } else {
      ReceiverCame(cfg, s, step, t);
      CameOnTheWay(cfg, s, step, k.ch);
      NothingForNew(s);
    }
  }

  lemma FullIsOnTheWay(s: System, t: nat)
    requires At(s, t)
    ensures s.tasks[t].Waiting? && s.tasks[t].ch < |s.chans| && s.chans[s.tasks[t].ch].FullConn? ==> OnTheWay(s, s.tasks[t].ch)
  {
  }

  lemma HandsOver(s: System, step: Step)
    requires Enabled(s, step) && (step.Release? || step.Retire?)
    ensures At(s, step.t) && Source(s, step.t)
  {
  }

  /**
   While callers are queued in an open pool: after a step someone will come to look for them if
   and only if some source is not lost by the step, or the step lets a new caller in.
  */
  lemma AnswerableStep(cfg: Config, s: System, step: Step)
    requires Inv(cfg, s) && Enabled(s, step)
    requires Open(Apply(cfg, s, step).p) && Apply(cfg, s, step).p.waiters != []
    ensures Answerable(Apply(cfg, s, step)) <==> Remains(s, step) || Gains(cfg, s, step)
  {
    hide Inv, Apply, Source, Loses;
    if Answerable(Apply(cfg, s, step)) {
      var t :| 0 <= t < |Apply(cfg, s, step).tasks| && Source(Apply(cfg, s, step), t);
      SourceCame(cfg, s, step, t);
    }
    if Remains(s, step) {
      var t :| 0 <= t < |s.tasks| && Source(s, t) && !Loses(s, step, t);
      SourceStays(cfg, s, step, t);
    } else if Gains(cfg, s, step) {
      NewcomerLooks(cfg, s, step);
    }
  }

  lemma NewcomerLooks(cfg: Config, s: System, step: Step)
    requires Gains(cfg, s, step) && Enabled(s, step) && Open(Apply(cfg, s, step).p)
    ensures Answerable(Apply(cfg, s, step))
  {
    assert Source(Apply(cfg, s, step), |s.tasks|);
  }

  /** Some source is lost by the step. */
  predicate LosesOne(s: System, step: Step)
  {
    Enabled(s, step) && exists t :: 0 <= t < |s.tasks| && Source(s, t) && Loses(s, step, t)
  }

  /** Everything on its way is on its way to a receiver. */
  ghost predicate AllHeard(s: System) { forall ch: nat :: OnTheWay(s, ch) ==> Listens(s, ch) }

  /** What only a pool that is shutting down has. */
  predicate ShutTask(k: Task) { k.Closing? || k.Uncount? || k.Draining? }

  ghost predicate ShutTasks(s: System)
  {
    && (Open(s.p) ==> forall i :: 0 <= i < |s.tasks| ==> !ShutTask(s.tasks[i]))
    && (!s.p.closed ==> s.abandoned == 0)
  }

  lemma ShutTasksStep(cfg: Config, s: System, step: Step)
    requires Enabled(s, step) && ShutTasks(s)
    ensures ShutTasks(Apply(cfg, s, step))
  {
    var s' := Apply(cfg, s, step);
    StepShape(cfg, s, step);
    if Open(s'.p) {
      NoShutTask(cfg, s, step);
      forall i | 0 <= i < |s'.tasks| ensures !ShutTask(s'.tasks[i]) {
      }
    }
  }

  lemma NoShutTask(cfg: Config, s: System, step: Step)
    requires Enabled(s, step) && Open(Apply(cfg, s, step).p) && !ShutTask(Before(cfg, s, step))
    ensures !ShutTask(After(cfg, s, step)) && !ShutTask(Spawned(cfg, s, step)) && Open(s.p)
  {
  }

  /** A counted connection is in a goroutine's hands or in a channel. */
  lemma {:induction false} SomeTask(tasks: seq<Task>) returns (i: nat)
    requires Total(tasks, OpenWeight) > 0
    ensures i < |tasks| && OpenWeight(tasks[i]) > 0
  {
    i := |tasks| - 1;
    if OpenWeight(tasks[i]) == 0 {
      i := SomeTask(tasks[..i]);
    }
  }

  lemma {:induction false} SomeChannel(chans: seq<Channel>) returns (ch: nat)
    requires Total(chans, ChannelWeight) > 0
    ensures ch < |chans| && chans[ch].FullConn?
  {
    ch := |chans| - 1;
    if ChannelWeight(chans[ch]) == 0 {
      ch := SomeChannel(chans[..ch]);
    }
  }

  lemma HeardIsSource(s: System, ch: nat)
    requires AllHeard(s) && OnTheWay(s, ch)
    ensures Answerable(s)
  {
    hide OnTheWay;
    var i :| 0 <= i < |s.tasks| && s.tasks[i] == Waiting(ch);
    assert Source(s, i);
  }

  /** If a connection is counted and none is idle, someone will look at the waiter list. */
  lemma CountedIsSource(cfg: Config, s: System)
    requires Inv(cfg, s) && AllHeard(s) && ShutTasks(s) && Open(s.p) && s.p.idle == [] && s.p.open > 0
    ensures Answerable(s)
  {
    hide AllHeard, OnTheWay, Total, SendLaw, WaitLaw, OwnershipLaw, Source;
    if Total(s.chans, ChannelWeight) > 0 {
      var ch := SomeChannel(s.chans);
      assert OnTheWay(s, ch) by { ChannelOnTheWay(s, ch); }
      HeardIsSource(s, ch);
    } else {
      var i := SomeTask(s.tasks);
      assert !ShutTask(s.tasks[i]);
      if s.tasks[i].Sending? {
        assert OnTheWay(s, s.tasks[i].ch) by { SenderOnTheWay(s, i); }
        HeardIsSource(s, s.tasks[i].ch);
      } else {
        LookerIsSource(s, i);
      }
    }
  }

  lemma ChannelOnTheWay(s: System, ch: nat)
    requires ch < |s.chans| && s.chans[ch].FullConn?
    ensures OnTheWay(s, ch)
  {
  }

  lemma SenderOnTheWay(s: System, i: nat)
    requires At(s, i) && s.tasks[i].Sending?
    ensures OnTheWay(s, s.tasks[i].ch)
  {
    assert Answers(s.tasks[i], s.tasks[i].ch);
  }

  lemma LookerIsSource(s: System, i: nat)
    requires At(s, i) && WillLook(s.tasks[i])
    ensures Answerable(s)
  {
    assert Source(s, i);
  }

  lemma AllHeardStep(cfg: Config, s: System, step: Step)
    requires Inv(cfg, s) && Enabled(s, step) && AllHeard(s) && !LosesOne(s, step)
    ensures AllHeard(Apply(cfg, s, step))
  {
    var s' := Apply(cfg, s, step);
    StepKeepsInv(cfg, s, step);
    InvLaws(cfg, s');
    hide Inv, Apply, SendLaw, WaitLaw, OnTheWay, Enabled;
    forall ch: nat | OnTheWay(s', ch) ensures Listens(s', ch) {
      CameOnTheWay(cfg, s, step, ch);
      if !OnTheWay(s, ch) {
        HandsOver(s, step);
        assert !Loses(s, step, step.t);
      }
      var i :| 0 <= i < |s.tasks| && s.tasks[i] == Waiting(ch);
      if OnlySpawns(step) || step.t != i {
        OthersStay(cfg, s, step, i);
        assert s'.tasks[i] == Waiting(ch);
      } else {
        StillListening(cfg, s, step, ch);
      }
    }
  }

  lemma StillListening(cfg: Config, s: System, step: Step, ch: nat)
    requires Enabled(s, step) && !OnlySpawns(step) && s.tasks[step.t] == Waiting(ch) && SendLaw(Apply(cfg, s, step))
    requires OnTheWay(s, ch) && !LosesOne(s, step)
    ensures !OnTheWay(Apply(cfg, s, step), ch)
  {
    if step.Cancel? {
      assert Source(s, step.t) && Loses(s, step, step.t);
    } else {
      var s' := Apply(cfg, s, step);
      forall i | 0 <= i < |s'.tasks| ensures !Answers(s'.tasks[i], ch) {
        if Answers(s'.tasks[i], ch) {
          HolderOfRight(s', i, ch);
        }
      }
    }
  }

  /** In an open pool: everything on its way is heard, and queued callers will get their turn. */
  ghost predicate Served(s: System)
  {
    Open(s.p) ==> AllHeard(s) && (s.p.waiters != [] ==> Answerable(s))
  }

  lemma ServedStep(cfg: Config, s: System, step: Step)
    requires Inv(cfg, s) && Enabled(s, step) && cfg.maxConns > 0
    requires ShutTasks(s) && Served(s) && !LosesOne(s, step)
    ensures Served(Apply(cfg, s, step))
  {
    var s' := Apply(cfg, s, step);
    hide Inv, Apply, AllHeard, Source, ShutTasks, Answerable, Loses, Enabled;
    if Open(s'.p) {
      OpenBefore(cfg, s, step);
      AllHeardStep(cfg, s, step);
      if s'.p.waiters != [] {
        AnswerableStep(cfg, s, step);
        if !Gains(cfg, s, step) {
          if s.p.waiters == [] {
            FirstInQueue(cfg, s, step);
            CountedIsSource(cfg, s);
          }
          SourceRemains(s, step);
        }
      }
    }
  }

  lemma OpenBefore(cfg: Config, s: System, step: Step)
    requires Enabled(s, step) && Open(Apply(cfg, s, step).p)
    ensures Open(s.p)
  {
  }

  lemma FirstInQueue(cfg: Config, s: System, step: Step)
    requires Enabled(s, step) && Open(s.p) && s.p.waiters == [] && Apply(cfg, s, step).p.waiters != []
    requires !Gains(cfg, s, step)
    ensures s.p.idle == [] && s.p.open >= cfg.maxConns
  {
    hide Eviction;
  }

  lemma SourceRemains(s: System, step: Step)
    requires Enabled(s, step) && Answerable(s) && !LosesOne(s, step)
    ensures Remains(s, step)
  {
    hide Source, Loses;
    var t :| 0 <= t < |s.tasks| && Source(s, t);
  }

  /**
   In every run in which no source is lost, no waiter is ever stranded: while callers are queued
   in an open pool there is a goroutine that will come to look for them.
  */
  lemma {:induction false} RunsServe(cfg: Config, steps: seq<Step>)
    requires Run(cfg, steps).Some? && cfg.maxConns > 0
    requires !Happens(cfg, steps, (s, step) => LosesOne(s, step))
    ensures Served(Run(cfg, steps).value) && ShutTasks(Run(cfg, steps).value)
  {
    hide Inv, Apply, Enabled, Served, LosesOne, ShutTasks;
    if steps == [] {
      RunNothing(cfg);
      InitServed(cfg);
    } else {
      var last := |steps| - 1;
      LastStep(cfg, steps);
      HappensLast(cfg, steps, (s, step) => LosesOne(s, step));
      RunsServe(cfg, steps[..last]);
      RunsKeepInv(cfg, steps[..last]);
      ShutTasksStep(cfg, Run(cfg, steps[..last]).value, steps[last]);
      ServedStep(cfg, Run(cfg, steps[..last]).value, steps[last]);
    }
  }

  lemma InitServed(cfg: Config)
    ensures Served(Init(cfg)) && ShutTasks(Init(cfg))
  {
  }

  // ---- What the laws do not promise -------------------------------------------------------

  lemma Extend(cfg: Config, steps: seq<Step>, s: System, step: Step, s': System)
    requires Run(cfg, steps) == Some(s) && Enabled(s, step) && Apply(cfg, s, step) == s'
    ensures Run(cfg, steps + [step]) == Some(s')
  {
    assert (steps + [step])[..|steps|] == steps;
  }

  /** One connection out, one caller waiting for it, MaxConns = 1. */
  const Contended: System :=
    System(Shared([], 1, 1, false, false, [0]), [Empty], [Holding(0), Waiting(0)], [], 1, 0, 0, 0)

  lemma OneHolderOneWaiter() returns (steps: seq<Step>)
    ensures Run(Config(1, 0), steps) == Some(Contended)
  {
    hide Run;
    var cfg := Config(1, 0);
    var s0 := System(Shared([], 0, 0, false, false, []), [], [], [], 0, 0, 0, 0);
    assert Run(cfg, []) == Some(s0) by { RunNothing(cfg); }
    var s1 := System(Shared([], 1, 1, false, false, []), [], [Dialing], [], 0, 0, 0, 0);
    Extend(cfg, [], s0, Acquire, s1);
    var s2 := System(Shared([], 1, 1, false, false, []), [], [Holding(0)], [], 1, 0, 0, 0);
    assert s1.tasks[0 := Holding(0)] == s2.tasks;
    Extend(cfg, [] + [Acquire], s1, DialOk(0), s2);
    Extend(cfg, [] + [Acquire] + [DialOk(0)], s2, Acquire, Contended);
    steps := [] + [Acquire] + [DialOk(0)] + [Acquire];
  }

  /** The holder has discarded: the slot is gone and a goroutine dials for the waiter. */
  const Redialling: System :=
    System(Shared([], 0, 0, false, false, []), [Empty], [Done, Waiting(0), Replacing(0)], [0], 1, 0, 0, 0)

  lemma DiscardForWaiter() returns (steps: seq<Step>)
    ensures Run(Config(1, 0), steps) == Some(Redialling)
  {
    hide Run;
    var cfg := Config(1, 0);
    steps := OneHolderOneWaiter();
    var s1 := Contended.(tasks := [Discarded, Waiting(0)], closedConns := [0]);
    assert Contended.tasks[0 := Discarded] == s1.tasks && Contended.closedConns + [0] == [0];
    Extend(cfg, steps, Contended, Discard(0), s1);
    var s2 := s1.(tasks := [RetireSlot, Waiting(0)], p := s1.p.(inUse := 0));
    assert s1.tasks[0 := RetireSlot] == s2.tasks;
    Extend(cfg, steps + [Discard(0)], s1, DiscardCount(0), s2);
    assert s2.tasks[0 := Done] + [Replacing(0)] == Redialling.tasks && s2.p.waiters[1..] == [];
    Extend(cfg, steps + [Discard(0)] + [DiscardCount(0)], s2, Retire(0), Redialling);
    steps := steps + [Discard(0)] + [DiscardCount(0)] + [Retire(0)];
  }

  /** A replacement dial reserves no slot: with MaxConns = 1, two connections end up open. */
  lemma ReplacementExceedsMaxConns() returns (steps: seq<Step>)
    ensures Run(Config(1, 0), steps).Some? && Run(Config(1, 0), steps).value.p.open == 2
  {
    hide Run;
    var cfg := Config(1, 0);
    steps := DiscardForWaiter();
    var s1 := Apply(cfg, Redialling, Acquire);
    Extend(cfg, steps, Redialling, Acquire, s1);
    var s2 := Apply(cfg, s1, ReplaceOk(2));
    Extend(cfg, steps + [Acquire], s1, ReplaceOk(2), s2);
    Extend(cfg, steps + [Acquire] + [ReplaceOk(2)], s2, Register(2), Apply(cfg, s2, Register(2)));
    steps := steps + [Acquire] + [ReplaceOk(2)] + [Register(2)];
  }

  /** A failed replacement dial is subtracted twice: `open` ends below zero. */
  lemma FailedReplacementUndercounts() returns (steps: seq<Step>)
    ensures Run(Config(1, 0), steps).Some? && Run(Config(1, 0), steps).value.p.open == -1
  {
    hide Run;
    var cfg := Config(1, 0);
    steps := DiscardForWaiter();
    var s1 := Apply(cfg, Redialling, ReplaceErr(2));
    Extend(cfg, steps, Redialling, ReplaceErr(2), s1);
    var s2 := Apply(cfg, s1, Send(2));
    Extend(cfg, steps + [ReplaceErr(2)], s1, Send(2), s2);
    Extend(cfg, steps + [ReplaceErr(2)] + [Send(2)], s2, ReplaceUncountConn(2), Apply(cfg, s2, ReplaceUncountConn(2)));
    steps := steps + [ReplaceErr(2)] + [Send(2)] + [ReplaceUncountConn(2)];
  }

  /** The holder releases to a waiter that has just given up. */
  const TooLate: System := Contended.(tasks := [Sending(0, 0), Cancelled(0)], p := Shared([], 1, 0, false, false, []))

  lemma ReleaseAfterCancel() returns (steps: seq<Step>)
    ensures Run(Config(1, 0), steps) == Some(TooLate)
  {
    hide Run;
    var cfg := Config(1, 0);
    steps := OneHolderOneWaiter();
    var s1 := Contended.(tasks := [Holding(0), Cancelled(0)]);
    assert Contended.tasks[1 := Cancelled(0)] == s1.tasks;
    Extend(cfg, steps, Contended, Cancel(1), s1);
    assert s1.tasks[0 := Sending(0, 0)] == TooLate.tasks && s1.p.waiters[1..] == [];
    Extend(cfg, steps + [Cancel(1)], s1, Release(0), TooLate);
    steps := steps + [Cancel(1)] + [Release(0)];
  }

  lemma NobodyWaits(s: System)
    requires s.tasks == [Done, Done]
    ensures Total(s.tasks, WaitWeight(0)) == 0
  {
    DoneWeighsNothing();
    hide WaitWeight;
    assert Total([], WaitWeight(0)) == 0;
    TotalAppend([], Done, WaitWeight(0));
    TotalAppend([Done], Done, WaitWeight(0));
    assert [] + [Done] == [Done] && [Done] + [Done] == s.tasks;
  }

  /** A wait cancelled while its answer is on the way leaves such a connection behind. */
  lemma CancelledHandover() returns (steps: seq<Step>)
    ensures Run(Config(1, 0), steps).Some? && Orphaned(Run(Config(1, 0), steps).value, 0)
  {
    hide Run, Total, WaitWeight;
    var cfg := Config(1, 0);
    steps := ReleaseAfterCancel();
    var s1 := TooLate.(tasks := [Sending(0, 0), Done]);
    assert TooLate.tasks[1 := Done] == s1.tasks;
    Extend(cfg, steps, TooLate, CancelWait(1), s1);
    var s2 := s1.(tasks := [Done, Done], chans := [FullConn(0)]);
    assert s1.tasks[0 := Done] == s2.tasks && s1.chans[0 := FullConn(0)] == s2.chans;
    Extend(cfg, steps + [CancelWait(1)], s1, Send(0), s2);
    steps := steps + [CancelWait(1)] + [Send(0)];
    NobodyWaits(s2);
  }

  /** After a failed replacement: one caller was told ErrClosed, the other still waits, `open` is -1. */
  const Stranded: System :=
    System(Shared([], -1, 0, false, false, [1]), [TakenNil, Empty], [Done, ErrClosed, Waiting(1), Done], [0], 1, 1, 0, 0)

  /** One connection out, MaxConns = 1, and two callers waiting for it. */
  const Crowded: System :=
    System(Shared([], 1, 1, false, false, [0, 1]), [Empty, Empty], [Holding(0), Waiting(0), Waiting(1)], [], 1, 0, 0, 0)

  lemma TwoWait() returns (steps: seq<Step>)
    ensures Run(Config(1, 0), steps) == Some(Crowded)
  {
    hide Run;
    steps := OneHolderOneWaiter();
    assert Contended.tasks + [Waiting(1)] == Crowded.tasks && Contended.p.waiters + [1] == [0, 1];
    assert Contended.chans + [Empty] == Crowded.chans;
    Extend(Config(1, 0), steps, Contended, Acquire, Crowded);
    steps := steps + [Acquire];
  }

  /** The holder discards, and the replacement dial for the first of the two fails. */
  const Failing: System :=
    System(Shared([], 0, 0, false, false, [1]), [Empty, Empty], [Done, Waiting(0), Waiting(1), ReplaceFailed(0)], [0], 1, 0, 0, 0)

  lemma DiscardForTwo() returns (steps: seq<Step>)
    ensures Run(Config(1, 0), steps) == Some(Failing.(tasks := [RetireSlot, Waiting(0), Waiting(1)],
                                                      p := Shared([], 1, 0, false, false, [0, 1])))
  {
    hide Run;
    var cfg := Config(1, 0);
    steps := TwoWait();
    var s1 := Crowded.(tasks := [Discarded, Waiting(0), Waiting(1)], closedConns := [0]);
    assert Crowded.tasks[0 := Discarded] == s1.tasks && Crowded.closedConns + [0] == [0];
    Extend(cfg, steps, Crowded, Discard(0), s1);
    var s2 := s1.(tasks := [RetireSlot, Waiting(0), Waiting(1)], p := s1.p.(inUse := 0));
    assert s1.tasks[0 := RetireSlot] == s2.tasks;
    Extend(cfg, steps + [Discard(0)], s1, DiscardCount(0), s2);
    steps := steps + [Discard(0)] + [DiscardCount(0)];
  }

  lemma ReplacementFails() returns (steps: seq<Step>)
    ensures Run(Config(1, 0), steps) == Some(Failing)
  {
    hide Run;
    var cfg := Config(1, 0);
    steps := DiscardForTwo();
    var s2 := Run(cfg, steps).value;
    var s3 := Failing.(tasks := [Done, Waiting(0), Waiting(1), Replacing(0)]);
    assert s2.tasks[0 := Done] + [Replacing(0)] == s3.tasks && s2.p.waiters[1..] == [1];
    Extend(cfg, steps, s2, Retire(0), s3);
    assert s3.tasks[3 := ReplaceFailed(0)] == Failing.tasks;
    Extend(cfg, steps + [Retire(0)], s3, ReplaceErr(3), Failing);
    steps := steps + [Retire(0)] + [ReplaceErr(3)];
  }

  /** The failure is reported to the first of the two, and subtracted from `open` again. */
  const Reported: System :=
    Failing.(tasks := [Done, Waiting(0), Waiting(1), Done], chans := [FullNil, Empty],
             p := Failing.p.(open := -1), lost := 1)

  lemma FailureReported() returns (steps: seq<Step>)
    ensures Run(Config(1, 0), steps) == Some(Reported)
  {
    hide Run;
    var cfg := Config(1, 0);
    steps := ReplacementFails();
    var s1 := Failing.(tasks := [Done, Waiting(0), Waiting(1), ReplaceUncount], chans := [FullNil, Empty]);
    assert Failing.tasks[3 := ReplaceUncount] == s1.tasks && Failing.chans[0 := FullNil] == s1.chans;
    Extend(cfg, steps, Failing, Send(3), s1);
    assert s1.tasks[3 := Done] == Reported.tasks;
    Extend(cfg, steps + [Send(3)], s1, ReplaceUncountConn(3), Reported);
    steps := steps + [Send(3)] + [ReplaceUncountConn(3)];
  }

  lemma StrandedWaits()
    ensures !Answerable(Stranded)
  {
    hide Enabled, Apply;
  }

  lemma StrandedSteps(step: Step)
    requires Enabled(Stranded, step)
    ensures step.Acquire? || step.Cancel? || step.Drain? || step.Close? || step.Evict?
  {
    if !OnlySpawns(step) {
      assert Stranded.tasks[step.t] in [Done, ErrClosed, Waiting(1)];
    }
  }

  /**
   A failed replacement dial answers one waiter and leaves the others without anyone who would
   look for them: nothing inside the pool can still happen, and `open` says -1.
  */
  lemma FailedReplacementStrands() returns (steps: seq<Step>)
    ensures Run(Config(1, 0), steps) == Some(Stranded)
    ensures Open(Stranded.p) && Stranded.p.waiters != [] && !Answerable(Stranded)
    ensures forall step :: Enabled(Stranded, step)
              ==> step.Acquire? || step.Cancel? || step.Drain? || step.Close? || step.Evict?
  {
    hide Run, Answerable;
    steps := FailureReported();
    assert Reported.tasks[1 := ErrClosed] == Stranded.tasks && Reported.chans[0 := TakenNil] == Stranded.chans;
    Extend(Config(1, 0), steps, Reported, Receive(1), Stranded);
    steps := steps + [Receive(1)];
    StrandedWaits();
    hide Enabled;
    forall step | Enabled(Stranded, step)
      ensures step.Acquire? || step.Cancel? || step.Drain? || step.Close? || step.Evict?
    {
      StrandedSteps(step);
    }
  }

  // ---- The idle stack --------------------------------------------------------------------------

  /** In an open pool the connection returned last is taken first, and those below it stay in place. */
  lemma NewestFirst(cfg: Config, s: System, t: nat)
    requires Enabled(s, Release(t)) && Open(s.p) && s.p.waiters == []
    ensures var s1 := Apply(cfg, s, Release(t));
            var s2 := Apply(cfg, s1, Acquire);
            s2.tasks[|s.tasks|] == Holding(s.tasks[t].conn) && s2.p.idle == s.p.idle
  {
    var s1 := Apply(cfg, s, Release(t));
    var n := |s1.p.idle| - 1;
    assert s1.p.idle[..n] == s.p.idle && s1.p.idle[n] == s.tasks[t].conn;
  }
}
