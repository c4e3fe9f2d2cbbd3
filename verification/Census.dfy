/**
 Where every prepared statement of the server is known (pgz/stmtcache.go, pgz/exec.go,
 pgz/pipeline.go): in the cache, in its queue of statements to close, or nowhere, and which
 operations lose track of one.
*/
module Census {
  import opened Bytes
  import opened Protocol
  import opened StmtCache
  import opened Pipeline
  import opened Statements

  /** The names the client still knows: cached, or queued for Close. */
  function Tracked(v: View): set<Name> { v.byKey.Values + Listed(v.closed) }

  /** The statements that stay on the server for the rest of the connection. */
  function Lost(s: System): set<Name> { s.srv.stmts.Keys - Tracked(s.view) }

  // ---- The cache --------------------------------------------------------------------------

  /** Evicting an entry queues its name. */
  lemma EvictTracks(v: View, key: Sql)
    requires key in v.byKey
    ensures Tracked(v.(closed := v.closed + [v.byKey[key]], byKey := v.byKey - {key})) == Tracked(v)
  {
    var w := v.(closed := v.closed + [v.byKey[key]], byKey := v.byKey - {key});
    forall n | n in Tracked(v) ensures n in Tracked(w) {
      if n in v.byKey.Values {
        var q :| q in v.byKey && v.byKey[q] == n;
        if q == key {
          assert w.closed[|v.closed|] == n;
        } else {
          assert q in w.byKey && w.byKey[q] == n;
        }
      } else {
        var i :| 0 <= i < |v.closed| && v.closed[i] == n;
        assert w.closed[i] == n;
      }
    }
    assert v.byKey[key] in v.byKey.Values;
  }

  lemma StoreTracks(v: View, sql: Sql, name: Name)
    requires sql !in v.byKey
    ensures Tracked(v.(byKey := v.byKey[sql := name])) == Tracked(v) + {name}
  {
    var m := v.byKey[sql := name];
    assert m[sql] == name;
    forall n | n in v.byKey.Values ensures n in m.Values {
      var q :| q in v.byKey && v.byKey[q] == n;
      assert m[q] == n;
    }
  }

  /** A new statement is known under its text, and no other is forgotten. */
  lemma PutTracks(v: View, sql: Sql, name: Name, victim: Option<Sql>)
    requires sql !in v.byKey
    ensures Tracked(PutView(v, sql, name, victim)) == Tracked(v) + {name}
    ensures sql in PutView(v, sql, name, victim).byKey && PutView(v, sql, name, victim).byKey[sql] == name
    ensures forall q :: q in v.byKey && Some(q) != victim ==>
              q in PutView(v, sql, name, victim).byKey && PutView(v, sql, name, victim).byKey[q] == v.byKey[q]
  {
    hide Tracked;
    if victim.Some? && victim.value in v.byKey {
      EvictTracks(v, victim.value);
      StoreTracks(v.(closed := v.closed + [v.byKey[victim.value]], byKey := v.byKey - {victim.value}), sql, name);
    } else {
      StoreTracks(v, sql, name);
    }
  }

  lemma InvalidateTracks(v: View, sql: Sql)
    ensures Tracked(InvalidateView(v, sql)) == Tracked(v) && sql !in InvalidateView(v, sql).byKey
  {
    if sql in v.byKey {
      EvictTracks(v, sql);
    }
  }

  // ---- A batch ------------------------------------------------------------------------------

  /** The statements new to the first `n` stages. */
  function NewNames(stages: seq<Stage>, n: nat): set<Name>
    requires n <= |stages|
  {
    set i | 0 <= i < n && stages[i].hasParse :: stages[i].name
  }

  predicate Uncached(v: View, stages: seq<Stage>)
  {
    && (forall i :: 0 <= i < |stages| && stages[i].hasParse ==> stages[i].sql !in v.byKey)
    && (forall i, j :: 0 <= i < j < |stages| && stages[i].hasParse && stages[j].hasParse
          ==> stages[i].sql != stages[j].sql)
  }

  lemma NewNamesFront(stages: seq<Stage>, n: nat)
    requires 0 < n <= |stages|
    ensures NewNames(stages, n)
         == (if stages[0].hasParse then {stages[0].name} else {}) + NewNames(stages[1..], n - 1)
  {
    forall i | 0 < i < n && stages[i].hasParse ensures stages[i].name in NewNames(stages[1..], n - 1) {
      assert stages[1..][i - 1] == stages[i];
    }
  }

  lemma CommitTracks(v: View, stages: seq<Stage>, victim: Option<Sql>)
    requires stages != [] && Uncached(v, stages)
    ensures var w := Committed(v, stages[0], victim);
      && Uncached(w, stages[1..])
      && Tracked(w) == Tracked(v) + (if stages[0].hasParse then {stages[0].name} else {})
  {
    hide Tracked;
    if stages[0].hasParse {
      PutTracks(v, stages[0].sql, stages[0].name, victim);
    } else {
      assert Tracked(v) + {} == Tracked(v);
    }
  }

  function Least(a: nat, b: nat): nat { if a < b then a else b }

  lemma GoodFront(blocks: seq<Block>)
    requires blocks != [] && forall i :: 0 <= i < |blocks| - 1 ==> blocks[i].Good?
    ensures GoodCount(blocks) == if blocks[0].Bad? then 0 else 1 + GoodCount(blocks[1..])
  {
  }

  /** Exec keeps the new statement of every item that went well, as far as Exec was called. */
  lemma {:induction false} CommitsTrack(v: View, stages: seq<Stage>, blocks: seq<Block>, tail: seq<Reply>, k: nat,
                                        victims: seq<Option<Sql>>)
    requires Uncached(v, stages) && AnswersTo(|stages|, blocks) && TailFits(blocks, tail)
    ensures Tracked(Commits(v, stages, Responses(blocks, tail), k, victims))
         == Tracked(v) + NewNames(stages, Least(k, GoodCount(blocks)))
    decreases |stages|
  {
    hide Tracked, Uncached, Responses, Committed, NewNames;
    if k == 0 || stages == [] {
      NoNewNames(v, stages);
    } else {
      CommitsStep(v, stages, blocks, tail, k, victims);
      GoodFront(blocks);
      if blocks[0].Good? {
        AnswersTail(|stages|, blocks);
        CommitTracks(v, stages, FirstVictim(victims));
        CommitsTrack(Committed(v, stages[0], FirstVictim(victims)), stages[1..], blocks[1..], tail, k - 1, Rest(victims));
        NewNamesFront(stages, Least(k, GoodCount(blocks)));
      } else {
        NoNewNames(v, stages);
      }
    }
  }

  lemma NoNewNames(v: View, stages: seq<Stage>)
    ensures Tracked(v) + NewNames(stages, 0) == Tracked(v)
  {
  }

  lemma BatchUncached(v: View, items: seq<Sql>)
    ensures var p := PlanBatch(v, items); Uncached(p.view, p.stages) && p.view.byKey == v.byKey && p.view.closed == []
  {
    ParsedOnce(v, items);
    var p := PlanBatch(v, items);
    forall i, j | 0 <= i < j < |p.stages| && p.stages[i].hasParse && p.stages[j].hasParse
      ensures p.stages[i].sql != p.stages[j].sql
    {
      assert First(items, j);
    }
  }

  /** Closing makes room, and then only parsed names come. */
  lemma HeldBehind(s: System, rest: seq<Front>, fates: seq<Fate>, parsed: set<Name>)
    requires Inv(s) && |fates| == |Closes(s.view.closed)| + |rest|
    requires forall i :: 0 <= i < |rest| ==> !rest[i].Close? && (rest[i].Parse? ==> rest[i].name in parsed)
    ensures var kept, after := s.srv.stmts.Keys - Listed(s.view.closed),
                               ServeAll(s.srv, Closes(s.view.closed) + rest, fates).0.stmts.Keys;
            kept <= after <= kept + parsed
  {
    hide ServeAll, CacheInv, Held, AllIssued;
    var v := s.view;
    var k := |Closes(v.closed)|;
    ServeConcat(s.srv, Closes(v.closed), rest, fates);
    ServeCloses(s.srv, v.closed, fates[..k]);
    var srv1 := ServeAll(s.srv, Closes(v.closed), fates[..k]).0;
    ServeKeepsIssued(srv1, rest, fates[k..]);
    forall name | name in srv1.stmts ensures name in ServeAll(srv1, rest, fates[k..]).0.stmts {
      ServeKeepsText(srv1, rest, fates[k..], name);
    }
  }

  /** Old statements are lost as before; of the new ones, those that were not stored. */
  lemma LostNow(s: System, s': System, stored: set<Name>)
    requires Inv(s)
    requires var kept := s.srv.stmts.Keys - Listed(s.view.closed);
             kept <= s'.srv.stmts.Keys && Tracked(s'.view) == s.view.byKey.Values + stored && stored !! kept
    ensures Lost(s') == Lost(s) + (s'.srv.stmts.Keys - (s.srv.stmts.Keys - Listed(s.view.closed)) - stored)
  {
    hide AllIssued, Issued;
    forall n | n in s.view.byKey.Values ensures n in s.srv.stmts.Keys && n !in Listed(s.view.closed) {
      var q :| q in s.view.byKey && s.view.byKey[q] == n;
    }
  }

  lemma EmptyQueue(v: View)
    requires v.closed == []
    ensures Tracked(v) == v.byKey.Values
  {
  }

  lemma BatchLoses(s: System, op: Op) returns (g: nat)
    requires Inv(s) && Enabled(s, op) && op.Batch?
    ensures var kept := s.srv.stmts.Keys - Listed(s.view.closed);
            var stages := PlanBatch(s.view, op.items).stages;
            var own := op.fates[|Closes(s.view.closed)|..][..|ItemsFront(stages)|];
            var after := Apply(s, op).srv.stmts.Keys;
      && |own| == |ItemsFront(stages)| && FirstFailing(kept, stages, own, g)
      && after - kept <= NewNames(stages, |stages|)
      && Lost(Apply(s, op))
      == Lost(s) + (after - kept - NewNames(stages, if s.view.closed == [] then Least(op.execs, g) else 0))
  {
    hide ServeAll, PlanBatch, Commits, Issued, Responses, AnswersTo, TailFits, BlocksMatch, NamesServed, Ahead, Tracked,
         OutOfStep, HasError, ItemsFront, Closes, Inv, AllQuiet, FirstFailing, Uncached, NewNames, Keeps, Lost, PlanFresh,
         Listed, PlanNamed;
    assert !s.srv.skipping by { InvServes(s); }
    var v := s.view;
    var p := PlanBatch(v, op.items);
    var kept := s.srv.stmts.Keys - Listed(v.closed);
    BatchLength(v.closed, p.stages);
    var own := op.fates[|Closes(v.closed)|..][..|ItemsFront(p.stages)|];
    var preamble, blocks, tail := ServeBatch(s.srv, v.closed, p.stages, op.fates);
    assert Listed(v.closed) == (set n | n in v.closed) by { ListedIs(v.closed); }
    g := GoodCount(blocks);
    GoodAreFirst(kept, p.stages, own, blocks);
    MatchAnswers(kept, p.stages, own, blocks);
    BatchUncached(v, op.items);
    EmptyQueue(p.view);
    BatchHolds(s, op);
    if v.closed == [] {
      assert preamble + Responses(blocks, tail) == Responses(blocks, tail);
      CommitsTrack(p.view, p.stages, blocks, tail, op.execs, op.victims);
    } else {
      assert Responses(blocks, tail) + [] == Responses(blocks, tail);
      ResponsesAhead(preamble, blocks, tail, []);
      NoCommitsOutOfStep(p.view, p.stages, ServeAll(s.srv, Written(v, op), op.fates).1, [], op.execs, op.victims);
      NoNewNames(p.view, p.stages);
    }
    NewNamesAreNew(s, op, if v.closed == [] then Least(op.execs, g) else 0);
    LostNow(s, Apply(s, op), NewNames(p.stages, if v.closed == [] then Least(op.execs, g) else 0));
  }

  lemma ListedIs(names: seq<Name>)
    ensures Listed(names) == set n | n in names
  {
  }

  lemma NewNamesAreNew(s: System, op: Op, n: nat)
    requires Inv(s) && op.Batch? && n <= |PlanBatch(s.view, op.items).stages|
    ensures NewNames(PlanBatch(s.view, op.items).stages, n) !! s.srv.stmts.Keys - Listed(s.view.closed)
  {
    KeptHeld(s);
    hide Issued, CacheInv, PlanBatch, ItemsFront, NamesAfter, WellNamed, Closes, SeenIn;
    PlanIsWellNamed(s.view, s.srv.stmts.Keys - Listed(s.view.closed), op.items);
  }

  lemma BatchHolds(s: System, op: Op)
    requires Inv(s) && Enabled(s, op) && op.Batch?
    ensures var kept, after := s.srv.stmts.Keys - Listed(s.view.closed), Apply(s, op).srv.stmts.Keys;
            var stages := PlanBatch(s.view, op.items).stages;
            kept <= after <= kept + NewNames(stages, |stages|)
  {
    hide ServeAll, PlanBatch, Inv, Commits, Closes, ItemsFront, Listed;
    var stages := PlanBatch(s.view, op.items).stages;
    var rest := ItemsFront(stages) + [Sync];
    BatchLength(s.view.closed, stages);
    ItemsOnly(stages);
    assert Written(s.view, op) == Closes(s.view.closed) + rest;
    HeldBehind(s, rest, op.fates, NewNames(stages, |stages|));
  }

  predicate Stored(replies: seq<Reply>, needsRows: bool) { !HasError(replies) && (needsRows ==> HasRows(replies)) }

  lemma PrepareLoses(s: System, op: Op)
    requires Inv(s) && Enabled(s, op) && op.Prepare?
    ensures var kept, after := s.srv.stmts.Keys - Listed(s.view.closed), Apply(s, op).srv.stmts.Keys;
            var name := NameOf(s.view.seqNo + 1);
            var replies := ServeAll(s.srv, Written(s.view, op), op.fates).1;
      && after - kept <= {name}
      && Lost(Apply(s, op)) == Lost(s) + (after - kept - (if Stored(replies, op.needsRows) then {name} else {}))
  {
    hide ServeAll, CacheInv, Held, AllIssued, Closes, Listed, Tracked, Lost, NameOf, HasError, HasRows;
    var v := s.view;
    var name := NameOf(v.seqNo + 1);
    var rest := [Parse(name, op.sql), Describe(name), Sync];
    HeldBehind(s, rest, op.fates, {name});
    NextNameIsNew(v, s.srv.stmts.Keys);
    var w := v.(seqNo := v.seqNo + 1, closed := []);
    EmptyQueue(w);
    PutTracks(w, op.sql, name, op.victim);
    InvalidateTracks(w, op.sql);
    var replies := ServeAll(s.srv, Written(v, op), op.fates).1;
    LostNow(s, Apply(s, op), if Stored(replies, op.needsRows) then {name} else {});
  }

  lemma RunLoses(s: System, op: Op)
    requires Inv(s) && Enabled(s, op) && op.Run?
    ensures Lost(Apply(s, op)) == Lost(s)
  {
    hide ServeAll, CacheInv, Held, AllIssued, Tracked;
    var front := Written(s.view, op);
    ServeKeepsIssued(s.srv, front, op.fates);
    forall name | name in s.srv.stmts ensures name in ServeAll(s.srv, front, op.fates).0.stmts {
      ServeKeepsText(s.srv, front, op.fates, name);
    }
  }

  /**
   After any run: executing and invalidating lose nothing. Preparing loses the new statement exactly
   when the server holds it but an error or the lack of a row description kept it out of the cache.
   A batch loses the new statements the server holds beyond the first failing item or the last Exec,
   and all of them when Close messages went out in front.
  */
  lemma LostStep(ops: seq<Op>, op: Op) returns (g: nat)
    requires After(ops).Some? && Enabled(After(ops).value, op)
    ensures var s := After(ops).value;
            var s' := Apply(s, op);
            var kept := s.srv.stmts.Keys - Listed(s.view.closed);
      match op
      case Run(_, _) => Lost(s') == Lost(s)
      case Invalidate(_) => Lost(s') == Lost(s)
      case Prepare(_, needsRows, _, fates) =>
        var stored := Stored(ServeAll(s.srv, Written(s.view, op), fates).1, needsRows);
        && s'.srv.stmts.Keys - kept <= {NameOf(s.view.seqNo + 1)}
        && Lost(s') == Lost(s) + (s'.srv.stmts.Keys - kept - (if stored then {NameOf(s.view.seqNo + 1)} else {}))
      case Batch(items, execs, _, fates) =>
        var stages := PlanBatch(s.view, items).stages;
        var own := fates[|Closes(s.view.closed)|..][..|ItemsFront(stages)|];
        && |own| == |ItemsFront(stages)| && FirstFailing(kept, stages, own, g)
        && s'.srv.stmts.Keys - kept <= NewNames(stages, |stages|)
        && Lost(s')
        == Lost(s) + (s'.srv.stmts.Keys - kept - NewNames(stages, if s.view.closed == [] then Least(execs, g) else 0))
  {
    hide ServeAll, PlanBatch, Closes, ItemsFront, Inv, Written, FirstFailing, Lost, NewNames, Listed, NameOf;
    RunsKeepInv(ops);
    var s := After(ops).value;
    g := 0;
    match op
    case Prepare(_, _, _, _) => PrepareLoses(s, op);
    case Run(_, _) => RunLoses(s, op);
    case Batch(_, _, _, _) => g := BatchLoses(s, op);
    case Invalidate(sql) => InvalidateLoses(s, sql);
  }

  lemma InvalidateLoses(s: System, sql: Sql)
    ensures Lost(System(InvalidateView(s.view, sql), s.srv)) == Lost(s)
  {
    hide Tracked, InvalidateView;
    InvalidateTracks(s.view, sql);
  }

  // ---- Runs without failures -----------------------------------------------------------------

  /** The operation succeeds; a batch is read to its end and had nothing to close. */
  predicate Clean(s: System, op: Op)
    requires Enabled(s, op)
  {
    match op
    case Prepare(_, needsRows, _, fates) => Stored(ServeAll(s.srv, Written(s.view, op), fates).1, needsRows)
    case Batch(items, execs, _, fates) =>
      var stages := PlanBatch(s.view, items).stages;
      && s.view.closed == [] && |stages| <= execs && |ItemsFront(stages)| <= |fates|
      && forall i :: 0 <= i < |stages| ==>
           ItemError(s.srv.stmts.Keys, stages, fates[..|ItemsFront(stages)|], i).None?
    case _ => true
  }

  predicate CleanRun(ops: seq<Op>)
    requires After(ops).Some?
  {
    ops == [] || (CleanRun(ops[..|ops| - 1]) && Clean(After(ops[..|ops| - 1]).value, ops[|ops| - 1]))
  }

  lemma CleanLosesNothing(ops: seq<Op>, op: Op)
    requires After(ops).Some? && Enabled(After(ops).value, op) && Clean(After(ops).value, op)
    ensures Lost(Apply(After(ops).value, op)) == Lost(After(ops).value)
  {
    hide ServeAll, PlanBatch, ItemsFront, Written, Lost, NewNames, NameOf, Stored, ItemError;
    var s := After(ops).value;
    var g := LostStep(ops, op);
    if op.Batch? {
      assert Closes(s.view.closed) == [];
      assert op.fates[0..] == op.fates;
      assert s.srv.stmts.Keys - Listed(s.view.closed) == s.srv.stmts.Keys;
    }
  }

  lemma {:induction false} AtMostAsManyValues(m: map<Sql, Name>)
    ensures |m.Values| <= |m|
    decreases |m|
  {
    if m != map[] {
      var k :| k in m;
      var m' := m - {k};
      RemoveOne(m, k);
      AtMostAsManyValues(m');
      assert m.Values <= m'.Values + {m[k]} by {
        forall n | n in m.Values ensures n in m'.Values + {m[k]} {
          var q :| q in m && m[q] == n;
          if q != k {
            assert q in m' && m'[q] == n;
          }
        }
      }
      AtMost(m.Values, m'.Values + {m[k]});
    }
  }

  lemma {:induction false} AtMost(a: set<Name>, b: set<Name>)
    requires a <= b
    ensures |a| <= |b|
  {
    assert |b| == |b - a| + |a| by { assert b == (b - a) + a; }
  }

  lemma {:induction false} ListedAtMost(names: seq<Name>)
    ensures |Listed(names)| <= |names|
  {
    if names != [] {
      var n := |names| - 1;
      ListedAtMost(names[..n]);
      assert names == names[..n] + [names[n]];
      assert Listed(names) == Listed(names[..n]) + {names[n]};
    }
  }

  /**
   While nothing fails the client knows every statement the server holds, so there are never more of
   them than entries in the cache and its queue.
  */
  lemma {:induction false} CleanRunsLoseNothing(ops: seq<Op>)
    requires After(ops).Some? && CleanRun(ops)
    ensures var s := After(ops).value; Lost(s) == {} && |s.srv.stmts| <= |s.view.byKey| + |s.view.closed|
  {
    hide ServeAll, Apply, Enabled, Clean, Lost;
    if ops == [] {
      NothingAtFirst();
    } else {
      CleanRunsLoseNothing(ops[..|ops| - 1]);
      CleanLosesNothing(ops[..|ops| - 1], ops[|ops| - 1]);
    }
    CountedByCache(After(ops).value);
  }

  lemma NothingAtFirst()
    ensures After([]).Some? && Lost(After([]).value) == {}
  {
  }

  lemma CountedByCache(s: System)
    requires Lost(s) == {}
    ensures |s.srv.stmts| <= |s.view.byKey| + |s.view.closed|
  {
    forall n | n in s.srv.stmts.Keys ensures n in Tracked(s.view) {
      assert n !in Lost(s);
    }
    AtMost(s.srv.stmts.Keys, Tracked(s.view));
    AtMostAsManyValues(s.view.byKey);
    ListedAtMost(s.view.closed);
  }
}
