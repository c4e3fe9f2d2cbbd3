/**
 Prepared statements over whole runs: a client that prepares, executes, batches, evicts and
 invalidates against one backend (pgz/query.go, pgz/exec.go, pgz/pipeline.go, pgz/stmtcache.go).
*/
module Statements {
  import opened Bytes
  import opened Protocol
  import opened StmtCache
  import opened Pipeline

  datatype System = System(view: View, srv: Server)

  /**
   One operation of the client, with the fates of its messages. The victims say which entries
   the cache evicts when it stores a statement; any choice is allowed.
  */
  datatype Op =
    | Prepare(sql: Sql, needsRows: bool, victim: Option<Sql>, fates: seq<Fate>)
    | Run(sql: Sql, fates: seq<Fate>)
    | Batch(items: seq<Sql>, execs: nat, victims: seq<Option<Sql>>, fates: seq<Fate>)
    | Invalidate(sql: Sql)

  /** The messages an operation writes. */
  function Written(v: View, op: Op): seq<Front>
    requires op.Run? ==> op.sql in v.byKey
  {
    match op
    case Prepare(sql, _, _, _) =>
      Closes(v.closed) + [Parse(NameOf(v.seqNo + 1), sql), Describe(NameOf(v.seqNo + 1)), Sync]
    case Run(sql, _) => [Bind(v.byKey[sql]), Execute, Sync]
    case Batch(items, _, _, _) => BatchFront(v.closed, PlanBatch(v, items).stages)
    case Invalidate(_) => []
  }

  function FatesOfOp(op: Op): seq<Fate> { if op.Invalidate? then [] else op.fates }

  /** Only what is not cached is prepared, only what is cached is run. */
  predicate Enabled(s: System, op: Op)
  {
    && (op.Prepare? ==> op.sql !in s.view.byKey)
    && (op.Run? ==> op.sql in s.view.byKey)
    && |FatesOfOp(op)| == |Written(s.view, op)|
  }

  predicate HasRows(replies: seq<Reply>) { exists i :: 0 <= i < |replies| && replies[i].RowDescription? }

  function Apply(s: System, op: Op): System
    requires Enabled(s, op)
  {
    var (srv, replies) := ServeAll(s.srv, Written(s.view, op), FatesOfOp(op));
    match op
    case Prepare(sql, needsRows, victim, _) =>
      var v := s.view.(seqNo := s.view.seqNo + 1, closed := []);
      if HasError(replies) || (needsRows && !HasRows(replies)) then System(InvalidateView(v, sql), srv)
      else System(PutView(v, sql, NameOf(v.seqNo), victim), srv)
    case Run(_, _) => System(s.view, srv)
    case Batch(items, execs, victims, _) =>
      var p := PlanBatch(s.view, items);
      System(Commits(p.view, p.stages, replies, execs, victims), srv)
    case Invalidate(sql) => System(InvalidateView(s.view, sql), s.srv)
  }

  /** The cache only names statements the server holds, each for its own text. */
  ghost predicate Inv(s: System)
  {
    !s.srv.skipping && CacheInv(s.view) && Held(s.view, s.srv.stmts) && AllIssued(s.view, s.srv.stmts.Keys)
  }

  /** Every cached name stands for the text it is cached under. */
  ghost predicate Held(v: View, stmts: map<Name, Sql>)
  {
    forall sql :: sql in v.byKey ==> v.byKey[sql] in stmts && stmts[v.byKey[sql]] == sql
  }

  /** Every one of `names` came out of the cache's counter. */
  predicate AllIssued(v: View, names: set<Name>) { forall name :: name in names ==> Issued(v, name) }

  // ---- Names in a pipeline --------------------------------------------------------------

  function Listed(names: seq<Name>): set<Name> { set n | n in names }

  lemma {:induction false} ClosesAreWellNamed(names: set<Name>, pending: seq<Name>)
    ensures WellNamed(names, Closes(pending))
    ensures NamesAfter(names, Closes(pending)) == names - Listed(pending)
  {
    if pending != [] {
      var n := |pending| - 1;
      ClosesAreWellNamed(names, pending[..n]);
      WellNamedConcat(names, Closes(pending[..n]), [Front.Close(pending[n])]);
      assert pending == pending[..n] + [pending[n]];
      OneClose(names - Listed(pending[..n]), pending[n]);
    }
  }

  lemma OneClose(names: set<Name>, name: Name)
    ensures WellNamed(names, [Front.Close(name)]) && NamesAfter(names, [Front.Close(name)]) == names - {name}
  {
    assert [Front.Close(name)][1..] == [];
  }

  lemma OnePrepare(names: set<Name>, name: Name, sql: Sql)
    requires name !in names
    ensures WellNamed(names, [Parse(name, sql), Describe(name)])
    ensures NamesAfter(names, [Parse(name, sql), Describe(name)]) == names + {name}
  {
    var f := [Parse(name, sql), Describe(name)];
    assert f[1..] == [Describe(name)] && [Describe(name)][1..] == [];
    assert WellNamed(names + {name}, [Describe(name)]);
    assert NamesAfter(names + {name}, [Describe(name)]) == names + {name};
  }

  lemma OneBind(names: set<Name>, name: Name)
    requires name in names
    ensures WellNamed(names, [Bind(name), Execute])
    ensures NamesAfter(names, [Bind(name), Execute]) == names
  {
    var f := [Bind(name), Execute];
    assert f[1..] == [Execute] && [Execute][1..] == [];
    assert WellNamed(names, [Execute]) && NamesAfter(names, [Execute]) == names;
  }

  lemma OneItem(names: set<Name>, stage: Stage)
    requires if stage.hasParse then stage.name !in names else stage.name in names
    ensures WellNamed(names, ItemFront(stage))
    ensures NamesAfter(names, ItemFront(stage)) == names + {stage.name}
  {
    var bind: seq<Front> := [Bind(stage.name), Execute];
    OneBind(names + {stage.name}, stage.name);
    if stage.hasParse {
      OnePrepare(names, stage.name, stage.sql);
      WellNamedConcat(names, [Parse(stage.name, stage.sql), Describe(stage.name)], bind);
    } else {
      assert [] + bind == bind;
      assert names + {stage.name} == names;
    }
  }

  lemma NextNameIsNew(v: View, names: set<Name>)
    requires AllIssued(v, names)
    ensures NameOf(v.seqNo + 1) !in names
    ensures AllIssued(v.(seqNo := v.seqNo + 1), names + {NameOf(v.seqNo + 1)})
  {
    if NameOf(v.seqNo + 1) in names {
      var k :| 1 <= k <= v.seqNo && NameOf(v.seqNo + 1) == NameOf(k);
      NamesDistinct(v.seqNo + 1, k);
      assert false;
    }
    var w := v.(seqNo := v.seqNo + 1);
    forall name | name in names + {NameOf(v.seqNo + 1)} ensures Issued(w, name) {
      if name in names {
        var k :| 1 <= k <= v.seqNo && name == NameOf(k);
        assert 1 <= k <= w.seqNo && name == NameOf(k);
      } else {
        assert 1 <= w.seqNo <= w.seqNo && name == NameOf(w.seqNo);
      }
    }
  }

  ghost predicate SeenIn(seen: map<Sql, Name>, after: set<Name>)
  {
    forall sql :: sql in seen ==> seen[sql] in after
  }

  lemma SeenGrows(seen: map<Sql, Name>, after: set<Name>, sql: Sql, name: Name)
    requires SeenIn(seen, after)
    ensures SeenIn(seen[sql := name], after + {name})
  {
  }

  /** What a plan relies on when `names` are held at its start. */
  ghost predicate PlanNamed(v: View, names: set<Name>, p: Plan)
  {
    var after := NamesAfter(names, ItemsFront(p.stages));
    && WellNamed(names, ItemsFront(p.stages)) && names <= after && AllIssued(p.view, after)
    && SeenIn(p.seen, after)
    && p.view.byKey == v.byKey && v.seqNo <= p.view.seqNo
  }

  /** The names the stages parse are outside `names`, inside `after`, and new each time. */
  ghost predicate Fresh(names: set<Name>, after: set<Name>, stages: seq<Stage>)
  {
    && (forall i :: 0 <= i < |stages| && stages[i].hasParse ==> stages[i].name !in names && stages[i].name in after)
    && (forall i, j :: 0 <= i < j < |stages| && stages[i].hasParse && stages[j].hasParse
          ==> stages[i].name != stages[j].name)
  }

  lemma FreshAppend(names: set<Name>, after: set<Name>, stages: seq<Stage>, stage: Stage)
    requires Fresh(names, after, stages) && names <= after && (stage.hasParse ==> stage.name !in after)
    ensures Fresh(names, after + {stage.name}, stages + [stage])
  {
  }

  ghost predicate PlanFresh(names: set<Name>, p: Plan)
  {
    Fresh(names, NamesAfter(names, ItemsFront(p.stages)), p.stages)
  }

  lemma {:induction false} PlanIsWellNamed(v: View, names: set<Name>, items: seq<Sql>)
    requires AllIssued(v, names) && forall sql :: sql in v.byKey ==> v.byKey[sql] in names
    ensures PlanNamed(v, names, PlanBatch(v, items)) && PlanFresh(names, PlanBatch(v, items))
  {
    if items == [] {
      assert ItemsFront([]) == [];
    } else {
      PlanIsWellNamed(v, names, items[..|items| - 1]);
      PlanNamedStep(v, names, items);
      PlanFreshStep(v, names, items);
    }
  }

  /** One more item: its name, and the names held after it. */
  lemma PlanGrows(v: View, items: seq<Sql>)
    requires items != []
    ensures var p, q := PlanBatch(v, items[..|items| - 1]), PlanBatch(v, items);
            var sql := items[|items| - 1];
      && |q.stages| > 0
      && (var stage := q.stages[|q.stages| - 1];
          && q.stages == p.stages + [stage] && q.seen == p.seen[sql := stage.name]
          && (if stage.hasParse
              then stage.name == NameOf(p.view.seqNo + 1) && q.view == p.view.(seqNo := p.view.seqNo + 1)
              else q.view == p.view && ((sql in p.seen && stage.name == p.seen[sql])
                                     || (sql in p.view.byKey && stage.name == p.view.byKey[sql]))))
  {
    var p := PlanBatch(v, items[..|items| - 1]);
    var sql := items[|items| - 1];
    if sql in p.seen {
      assert p.seen[sql := p.seen[sql]] == p.seen;
    }
  }

  lemma PlanStepNames(v: View, names: set<Name>, items: seq<Sql>)
    requires items != [] && PlanNamed(v, names, PlanBatch(v, items[..|items| - 1]))
    requires forall sql :: sql in v.byKey ==> v.byKey[sql] in names
    ensures |PlanBatch(v, items).stages| > 0
    ensures var p, q := PlanBatch(v, items[..|items| - 1]), PlanBatch(v, items);
            var after := NamesAfter(names, ItemsFront(p.stages));
            var stage := q.stages[|q.stages| - 1];
      && NamesAfter(names, ItemsFront(q.stages)) == after + {stage.name}
      && WellNamed(names, ItemsFront(q.stages)) && AllIssued(q.view, after + {stage.name})
      && (stage.hasParse <==> stage.name !in after)
  {
    PlanGrows(v, items);
    hide ItemFront, NameOf, WellNamed, NamesAfter, PlanBatch, Issued;
    var p, q := PlanBatch(v, items[..|items| - 1]), PlanBatch(v, items);
    var after := NamesAfter(names, ItemsFront(p.stages));
    var stage := q.stages[|q.stages| - 1];
    assert q.stages[..|p.stages|] == p.stages;
    NextNameIsNew(p.view, after);
    OneItem(after, stage);
    WellNamedConcat(names, ItemsFront(p.stages), ItemFront(stage));
    assert stage.hasParse || after + {stage.name} == after;
  }

  lemma PlanNamedStep(v: View, names: set<Name>, items: seq<Sql>)
    requires items != [] && PlanNamed(v, names, PlanBatch(v, items[..|items| - 1]))
    requires forall sql :: sql in v.byKey ==> v.byKey[sql] in names
    ensures PlanNamed(v, names, PlanBatch(v, items))
  {
    hide ItemFront, ItemsFront, NameOf, WellNamed, NamesAfter, PlanBatch, AllIssued, SeenIn;
    PlanGrows(v, items);
    PlanStepNames(v, names, items);
    var p, q := PlanBatch(v, items[..|items| - 1]), PlanBatch(v, items);
    SeenGrows(p.seen, NamesAfter(names, ItemsFront(p.stages)), items[|items| - 1], q.stages[|q.stages| - 1].name);
  }

  lemma PlanFreshStep(v: View, names: set<Name>, items: seq<Sql>)
    requires items != [] && PlanFresh(names, PlanBatch(v, items[..|items| - 1]))
    requires PlanNamed(v, names, PlanBatch(v, items[..|items| - 1]))
    requires forall sql :: sql in v.byKey ==> v.byKey[sql] in names
    ensures PlanFresh(names, PlanBatch(v, items))
  {
    PlanGrows(v, items);
    PlanStepNames(v, names, items);
    hide ItemFront, ItemsFront, NameOf, WellNamed, NamesAfter, PlanBatch, AllIssued, Fresh;
    var p, q := PlanBatch(v, items[..|items| - 1]), PlanBatch(v, items);
    FreshAppend(names, NamesAfter(names, ItemsFront(p.stages)), p.stages, q.stages[|q.stages| - 1]);
  }

  // ---- The operations keep the invariant ------------------------------------------------

  lemma SyncEnds(names: set<Name>)
    ensures WellNamed(names, [Sync])
  {
    assert [Sync][1..] == [];
  }

  lemma PrepareIsWellNamed(s: System, sql: Sql)
    requires Inv(s)
    ensures var name := NameOf(s.view.seqNo + 1);
            WellNamed(s.srv.stmts.Keys, Closes(s.view.closed) + [Parse(name, sql), Describe(name), Sync])
  {
    var v, names := s.view, s.srv.stmts.Keys;
    NextNameIsNew(v, names);
    hide NameOf, Issued, WellNamed, NamesAfter, Closes, CacheInv;
    var name := NameOf(v.seqNo + 1);
    var rest := [Parse(name, sql), Describe(name), Sync];
    ClosesAreWellNamed(names, v.closed);
    OnePrepare(names - Listed(v.closed), name, sql);
    SyncEnds(names - Listed(v.closed) + {name});
    assert rest == [Parse(name, sql), Describe(name)] + [Sync];
    WellNamedConcat(names - Listed(v.closed), [Parse(name, sql), Describe(name)], [Sync]);
    WellNamedConcat(names, Closes(v.closed), rest);
  }

  lemma RunIsWellNamed(names: set<Name>, name: Name)
    requires name in names
    ensures WellNamed(names, [Bind(name), Execute, Sync])
  {
    hide WellNamed, NamesAfter;
    assert [Bind(name), Execute, Sync] == [Bind(name), Execute] + [Sync];
    OneBind(names, name);
    SyncEnds(names);
    WellNamedConcat(names, [Bind(name), Execute], [Sync]);
  }

  lemma BatchIsWellNamed(s: System, items: seq<Sql>)
    requires Inv(s)
    ensures WellNamed(s.srv.stmts.Keys, BatchFront(s.view.closed, PlanBatch(s.view, items).stages))
  {
    KeptHeld(s);
    hide Issued, WellNamed, NamesAfter, Closes, CacheInv, PlanBatch, ItemsFront, Fresh, SeenIn;
    var v, names := s.view, s.srv.stmts.Keys;
    var p := PlanBatch(v, items);
    var kept := names - Listed(v.closed);
    var front := ItemsFront(p.stages);
    ClosesAreWellNamed(names, v.closed);
    PlanIsWellNamed(v, kept, items);
    SyncEnds(NamesAfter(kept, front));
    WellNamedConcat(kept, front, [Sync]);
    WellNamedConcat(names, Closes(v.closed), front + [Sync]);
    assert Closes(v.closed) + front + [Sync] == Closes(v.closed) + (front + [Sync]);
  }

  lemma OneSync(v: View, op: Op)
    requires !op.Invalidate? && (op.Run? ==> op.sql in v.byKey)
    ensures OnePipeline(Written(v, op))
  {
    hide PlanBatch, ItemsFront, Closes, NameOf;
    ClosesOnly(v.closed);
    if op.Batch? {
      ItemsOnly(PlanBatch(v, op.items).stages);
    }
  }

  /** Every operation writes one well-named pipeline. */
  lemma WritesAreWellNamed(s: System, op: Op)
    requires Inv(s) && Enabled(s, op) && !op.Invalidate?
    ensures WellNamed(s.srv.stmts.Keys, Written(s.view, op)) && OnePipeline(Written(s.view, op))
  {
    OneSync(s.view, op);
    hide WellNamed, OnePipeline, CacheInv, AllIssued, BatchFront, PlanBatch, NameOf, Closes;
    match op
    case Prepare(sql, _, _, _) => PrepareIsWellNamed(s, sql);
    case Run(sql, _) => RunIsWellNamed(s.srv.stmts.Keys, s.view.byKey[sql]);
    case Batch(items, _, _, _) => BatchIsWellNamed(s, items);
  }

  lemma {:induction false} ClosesOnly(pending: seq<Name>)
    ensures |Closes(pending)| == |pending|
    ensures forall i :: 0 <= i < |pending| ==> Closes(pending)[i] == Front.Close(pending[i])
  {
    if pending != [] {
      ClosesOnly(pending[..|pending| - 1]);
    }
  }

  lemma {:induction false} ItemsOnly(stages: seq<Stage>)
    ensures forall i :: 0 <= i < |ItemsFront(stages)| ==> !ItemsFront(stages)[i].Sync? && !ItemsFront(stages)[i].Close?
    ensures forall i :: 0 <= i < |ItemsFront(stages)| && ItemsFront(stages)[i].Parse? ==>
              exists j :: 0 <= j < |stages| && stages[j].hasParse && stages[j].name == ItemsFront(stages)[i].name
  {
    if stages != [] {
      var n := |stages| - 1;
      ItemsOnly(stages[..n]);
      forall i | 0 <= i < |ItemsFront(stages)| && ItemsFront(stages)[i].Parse?
        ensures exists j :: 0 <= j < |stages| && stages[j].hasParse && stages[j].name == ItemsFront(stages)[i].name
      {
        if i < |ItemsFront(stages[..n])| {
          var j :| 0 <= j < n && stages[..n][j].hasParse && stages[..n][j].name == ItemsFront(stages)[i].name;
          assert stages[j].hasParse;
        } else {
          assert stages[n].hasParse;
        }
      }
    }
  }

  // ---- What the cache stores ---------------------------------------------------------------

  /** `k` Exec calls can only store statements whose Parse the server has completed. */
  ghost predicate Committable(v: View, stages: seq<Stage>, stmts: map<Name, Sql>)
  {
    && CacheInv(v)
    && Held(v, stmts)
    && (forall i :: 0 <= i < |stages| && stages[i].hasParse ==>
          Issued(v, stages[i].name) && stages[i].name !in v.closed
          && forall sql :: sql in v.byKey ==> v.byKey[sql] != stages[i].name)
    && (forall i, j :: 0 <= i < j < |stages| && stages[i].hasParse && stages[j].hasParse
          ==> stages[i].name != stages[j].name)
  }

  lemma CommitOne(v: View, stages: seq<Stage>, stmts: map<Name, Sql>, victim: Option<Sql>)
    requires stages != [] && Committable(v, stages, stmts) 
    requires stages[0].hasParse ==> stages[0].name in stmts && stmts[stages[0].name] == stages[0].sql
    ensures var w := Committed(v, stages[0], victim);
            Committable(w, stages[1..], stmts) && w.seqNo == v.seqNo
  {
    if stages[0].hasParse {
      PutKeepsCacheInv(v, stages[0].sql, stages[0].name, victim);
      var w := PutView(v, stages[0].sql, stages[0].name, victim);
      forall i | 0 <= i < |stages| - 1 && stages[1..][i].hasParse
        ensures Issued(w, stages[1..][i].name) && stages[1..][i].name !in w.closed
        ensures forall sql :: sql in w.byKey ==> w.byKey[sql] != stages[1..][i].name
      {
        assert stages[1..][i] == stages[i + 1];
        assert Issued(v, stages[i + 1].name);
      }
    }
  }

  /** One Exec on answers in step. */
  lemma CommitsStep(v: View, stages: seq<Stage>, blocks: seq<Block>, tail: seq<Reply>, k: nat,
                    victims: seq<Option<Sql>>)
    requires k > 0 && stages != [] && AnswersTo(|stages|, blocks) && TailFits(blocks, tail)
    ensures blocks != []
    ensures blocks[0].Bad? ==> Commits(v, stages, Responses(blocks, tail), k, victims) == v
    ensures blocks[0].Bad?
         || Commits(v, stages, Responses(blocks, tail), k, victims)
         == Commits(Committed(v, stages[0], FirstVictim(victims)), stages[1..], Responses(blocks[1..], tail), k - 1, Rest(victims))
  {
    hide ReadItem, Responses, PutView;
    ReadInStep(blocks, 0, tail, [], |stages|);
    assert blocks[0..] == blocks && Responses(blocks, tail) + [] == Responses(blocks, tail);
    assert Responses(blocks[1..], tail) + [] == Responses(blocks[1..], tail);
  }

  lemma AnswersTail(n: nat, blocks: seq<Block>)
    requires n > 0 && AnswersTo(n, blocks) && blocks != [] && blocks[0].Good?
    ensures AnswersTo(n - 1, blocks[1..])
  {
  }

  lemma {:induction false} CommitsKeep(v: View, stages: seq<Stage>, stmts: map<Name, Sql>, blocks: seq<Block>,
                                       tail: seq<Reply>,
                                       k: nat, victims: seq<Option<Sql>>)
    requires Committable(v, stages, stmts) && AnswersTo(|stages|, blocks) && TailFits(blocks, tail)
    requires NamesServed(stmts, stages, blocks)
    ensures var w := Commits(v, stages, Responses(blocks, tail), k, victims);
            Committable(w, [], stmts) && w.seqNo == v.seqNo
    decreases |stages|
  {
    CommitNothing(v, stages, stmts);
    if k > 0 && stages != [] {
      hide Committable, Commits, Responses, AnswersTo, PutView;
      CommitsStep(v, stages, blocks, tail, k, victims);
      if blocks[0].Good? {
        AnswersTail(|stages|, blocks);
        CommitOne(v, stages, stmts, FirstVictim(victims));
        CommitsKeep(Committed(v, stages[0], FirstVictim(victims)), stages[1..], stmts, blocks[1..], tail, k - 1, Rest(victims));
      }
    }
  }

  lemma CommitNothing(v: View, stages: seq<Stage>, stmts: map<Name, Sql>)
    requires Committable(v, stages, stmts)
    ensures Committable(v, [], stmts)
  {
  }

  /** After pending Close messages the first Exec already fails, so nothing is stored. */
  lemma NoCommitsOutOfStep(v: View, stages: seq<Stage>, input: seq<Reply>, after: seq<Reply>, k: nat,
                           victims: seq<Option<Sql>>)
    requires OutOfStep(input) && Ahead(input, after)
    ensures Commits(v, stages, input, k, victims) == v
  {
    ReadItemAhead(input, after, None);
  }

  // ---- The invariant over whole runs --------------------------------------------------------------

  lemma {:induction false} ServeKeepsIssued(srv: Server, front: seq<Front>, fates: seq<Fate>)
    requires |fates| == |front|
    ensures forall name :: name in ServeAll(srv, front, fates).0.stmts ==>
              name in srv.stmts || exists i :: 0 <= i < |front| && front[i].Parse? && front[i].name == name
    decreases |front|
  {
    if front != [] {
      var (srv1, r1) := Serve(srv, front[0], fates[0]);
      ServeKeepsIssued(srv1, front[1..], fates[1..]);
      forall name | name in ServeAll(srv1, front[1..], fates[1..]).0.stmts && name !in srv.stmts
        ensures exists i :: 0 <= i < |front| && front[i].Parse? && front[i].name == name
      {
        if name in srv1.stmts {
          assert front[0].Parse? && front[0].name == name;
        } else {
          var i :| 0 <= i < |front[1..]| && front[1..][i].Parse? && front[1..][i].name == name;
          assert front[i + 1].Parse? && front[i + 1].name == name;
        }
      }
    }
  }

  lemma IssuedLater(v: View, w: View, name: Name)
    requires Issued(v, name) && v.seqNo <= w.seqNo
    ensures Issued(w, name)
  {
    var k :| 1 <= k <= v.seqNo && name == NameOf(k);
    assert 1 <= k <= w.seqNo && name == NameOf(k);
  }

  /** A name is free for a new statement: handed out, not queued and not cached. */
  ghost predicate Free(v: View, name: Name)
  {
    Issued(v, name) && name !in v.closed && forall sql :: sql in v.byKey ==> v.byKey[sql] != name
  }

  lemma TakenView(v: View, w: View)
    requires CacheInv(v) && w.byKey == v.byKey && w.closed == [] && v.seqNo <= w.seqNo
    ensures CacheInv(w)
  {
    forall sql | sql in w.byKey ensures Issued(w, w.byKey[sql]) {
      IssuedLater(v, w, v.byKey[sql]);
    }
  }

  lemma NextIsFree(v: View)
    requires CacheInv(v)
    ensures Free(v.(seqNo := v.seqNo + 1, closed := []), NameOf(v.seqNo + 1))
  {
    NextNameIsNew(v, v.byKey.Values);
    var w := v.(seqNo := v.seqNo + 1, closed := []);
    assert 1 <= w.seqNo <= w.seqNo && NameOf(v.seqNo + 1) == NameOf(w.seqNo);
    forall sql | sql in w.byKey ensures w.byKey[sql] != NameOf(v.seqNo + 1) {
      assert v.byKey[sql] in v.byKey.Values;
    }
  }

  lemma ErrorShows(a: seq<Reply>, b: seq<Reply>, c: seq<Reply>)
    requires b != [] && b[|b| - 1].ErrorResponse?
    ensures HasError(a + (b + c))
  {
    assert (a + (b + c))[|a| + |b| - 1] == b[|b| - 1];
  }

  /** Without an error in the answer, the statement is on the server. */
  lemma PrepareStores(srv: Server, pending: seq<Name>, name: Name, sql: Sql, fates: seq<Fate>)
    requires !srv.skipping && |fates| == |Closes(pending)| + 3
    ensures var (srv', replies) := ServeAll(srv, Closes(pending) + [Parse(name, sql), Describe(name), Sync], fates);
            HasError(replies) || (name in srv'.stmts && srv'.stmts[name] == sql)
  {
    hide ServeAll, Serve, HasError;
    var k := |Closes(pending)|;
    var prep := [Parse(name, sql), Describe(name)];
    assert [Parse(name, sql), Describe(name), Sync] == prep + [Sync];
    ServeConcat(srv, Closes(pending), prep + [Sync], fates);
    ServeCloses(srv, pending, fates[..k]);
    var (srv1, r1) := ServeAll(srv, Closes(pending), fates[..k]);
    ServeConcat(srv1, prep, [Sync], fates[k..]);
    var (srv2, r2) := ServeAll(srv1, prep, fates[k..][..2]);
    var b := ServePrepare(srv1, Stage(sql, name, true), fates[k..][..2]);
    ServeSync(srv2, fates[k..][2..]);
    if srv2.skipping {
      ErrorShows(r1, r2, ServeAll(srv2, [Sync], fates[k..][2..]).1);
    }
  }

  /** The messages close only queued names and parse only handed-out ones. */
  ghost predicate Orderly(v: View, w: View, front: seq<Front>)
  {
    forall i :: 0 <= i < |front| ==>
      (front[i].Close? ==> front[i].name in v.closed) && (front[i].Parse? ==> Issued(w, front[i].name))
  }

  /** Serving orderly messages loses no cached statement and adds only handed-out names. */
  lemma ServedNames(v: View, w: View, srv: Server, front: seq<Front>, fates: seq<Fate>)
    requires CacheInv(v) && Held(v, srv.stmts) && AllIssued(v, srv.stmts.Keys) && v.seqNo <= w.seqNo
    requires |fates| == |front| && Orderly(v, w, front)
    ensures Held(v, ServeAll(srv, front, fates).0.stmts) && AllIssued(w, ServeAll(srv, front, fates).0.stmts.Keys)
  {
    hide ServeAll, NameOf;
    ServeKeepsIssued(srv, front, fates);
    var srv' := ServeAll(srv, front, fates).0;
    forall sql | sql in v.byKey ensures v.byKey[sql] in srv'.stmts && srv'.stmts[v.byKey[sql]] == sql {
      ServeKeepsText(srv, front, fates, v.byKey[sql]);
    }
    forall n | n in ServeAll(srv, front, fates).0.stmts.Keys ensures Issued(w, n) {
      if n in srv.stmts.Keys {
        IssuedLater(v, w, n);
      }
    }
  }

  lemma PrepareIsOrderly(v: View, sql: Sql)
    ensures Orderly(v, v.(seqNo := v.seqNo + 1, closed := []),
                    Closes(v.closed) + [Parse(NameOf(v.seqNo + 1), sql), Describe(NameOf(v.seqNo + 1)), Sync])
  {
    var w := v.(seqNo := v.seqNo + 1, closed := []);
    ClosesOnly(v.closed);
    assert 1 <= w.seqNo <= w.seqNo && NameOf(v.seqNo + 1) == NameOf(w.seqNo);
  }

  lemma PutKeepsInv(w: View, srv: Server, sql: Sql, name: Name, victim: Option<Sql>)
    requires Inv(System(w, srv)) && Free(w, name) && name in srv.stmts && srv.stmts[name] == sql
    ensures Inv(System(PutView(w, sql, name, victim), srv))
  {
    hide NameOf;
    PutKeepsCacheInv(w, sql, name, victim);
    SameIssued(w, PutView(w, sql, name, victim), srv.stmts.Keys);
  }

  lemma SameIssued(v: View, w: View, names: set<Name>)
    requires AllIssued(v, names) && v.seqNo <= w.seqNo
    ensures AllIssued(w, names)
  {
    forall name | name in names ensures Issued(w, name) {
      IssuedLater(v, w, name);
    }
  }

  lemma InvalidateKeepsInv(w: View, srv: Server, sql: Sql)
    requires Inv(System(w, srv))
    ensures Inv(System(InvalidateView(w, sql), srv))
  {
    if sql in w.byKey {
      EvictKeepsCacheInv(w, sql);
      SameIssued(w, InvalidateView(w, sql), srv.stmts.Keys);
    }
  }

  lemma PrepareKeepsInv(s: System, op: Op)
    requires Inv(s) && Enabled(s, op) && op.Prepare?
    ensures Inv(Apply(s, op))
  {
    var v := s.view;
    var name := NameOf(v.seqNo + 1);
    var front := Written(v, op);
    var (srv, replies) := ServeAll(s.srv, front, op.fates);
    var w := v.(seqNo := v.seqNo + 1, closed := []);
    WritesAreWellNamed(s, op);
    PrepareIsOrderly(v, op.sql);
    TakenView(v, w);
    NextIsFree(v);
    hide NameOf, ServeAll, Issued, CacheInv, Held, AllIssued, Orderly, Free, PutView, InvalidateView, WellNamed, OnePipeline;
    WellNamedServes(s.srv, front, op.fates);
    ServedNames(v, w, s.srv, front, op.fates);
    SameCache(v, w, srv.stmts);
    InvalidateKeepsInv(w, srv, op.sql);
    if !HasError(replies) {
      PrepareStores(s.srv, v.closed, name, op.sql, op.fates);
      PutKeepsInv(w, srv, op.sql, name, op.victim);
    }
  }

  lemma SameCache(v: View, w: View, stmts: map<Name, Sql>)
    requires Held(v, stmts) && v.byKey == w.byKey
    ensures Held(w, stmts)
  {
  }

  lemma MatchAnswers(names: set<Name>, stages: seq<Stage>, fates: seq<Fate>, blocks: seq<Block>)
    requires |fates| == |ItemsFront(stages)| && BlocksMatch(names, stages, fates, blocks)
    ensures AnswersTo(|stages|, blocks) && forall i :: 0 <= i < |blocks| ==> AllQuiet(blocks[i].quiet)
  {
  }

  lemma CommittableNow(v: View, stmts: map<Name, Sql>)
    requires Committable(v, [], stmts)
    ensures CacheInv(v) && Held(v, stmts)
  {
  }

  /** What the batch stores is held by the server. */
  lemma BatchCommits(s: System, op: Op)
    requires Inv(s) && Enabled(s, op) && op.Batch?
    ensures var (srv, replies) := ServeAll(s.srv, Written(s.view, op), op.fates);
            var p := PlanBatch(s.view, op.items);
            var w := Commits(p.view, p.stages, replies, op.execs, op.victims);
            Committable(w, [], srv.stmts) && w.seqNo == p.view.seqNo && !srv.skipping
  {
    hide ServeAll, PlanBatch, Committable, Commits, Issued, Responses, AnswersTo, TailFits, BlocksMatch, NamesServed, Ahead,
         OutOfStep, HasError, ItemsFront, Closes, Inv, AllQuiet;
    BatchCommittable(s, op);
    assert !s.srv.skipping by { InvServes(s); }
    var v := s.view;
    var p := PlanBatch(v, op.items);
    BatchLength(v.closed, p.stages);
    var (srv, replies) := ServeAll(s.srv, Written(v, op), op.fates);
    var preamble, blocks, tail := ServeBatch(s.srv, v.closed, p.stages, op.fates);
    MatchAnswers(s.srv.stmts.Keys - (set n | n in v.closed), p.stages,
                 op.fates[|Closes(v.closed)|..][..|ItemsFront(p.stages)|], blocks);
    if v.closed == [] {
      assert preamble + Responses(blocks, tail) == Responses(blocks, tail);
      CommitsKeep(p.view, p.stages, srv.stmts, blocks, tail, op.execs, op.victims);
    } else {
      assert Responses(blocks, tail) + [] == Responses(blocks, tail);
      ResponsesAhead(preamble, blocks, tail, []);
      NoCommitsOutOfStep(p.view, p.stages, replies, [], op.execs, op.victims);
      CommitNothing(p.view, p.stages, srv.stmts);
    }
  }

  lemma InvServes(s: System)
    requires Inv(s)
    ensures !s.srv.skipping
  {
  }

  lemma BatchKeepsInv(s: System, op: Op)
    requires Inv(s) && Enabled(s, op) && op.Batch?
    ensures Inv(Apply(s, op))
  {
    BatchCommits(s, op);
    BatchNames(s, op);
    hide ServeAll, PlanBatch, Committable, Commits, Issued, CacheInv, Held, Written;
    var srv, w := Apply(s, op).srv, Apply(s, op).view;
    CommittableNow(w, srv.stmts);
    forall n | n in srv.stmts.Keys ensures Issued(w, n) {
      IssuedLater(PlanBatch(s.view, op.items).view, w, n);
    }
  }

  /** The names a plan parses are handed out by its counter. */
  lemma ParsedAreIssued(v: View, kept: set<Name>, p: Plan)
    requires PlanNamed(v, kept, p) && PlanFresh(kept, p)
    ensures forall i :: 0 <= i < |ItemsFront(p.stages)| && ItemsFront(p.stages)[i].Parse? ==>
              Issued(p.view, ItemsFront(p.stages)[i].name)
  {
    hide Issued, ItemsFront, NamesAfter, WellNamed, SeenIn;
    ItemsOnly(p.stages);
    var front := ItemsFront(p.stages);
    forall i | 0 <= i < |front| && front[i].Parse?
      ensures Issued(p.view, front[i].name)
    {
      var j :| 0 <= j < |p.stages| && p.stages[j].hasParse && p.stages[j].name == front[i].name;
      assert p.stages[j].name in NamesAfter(kept, front);
    }
  }

  lemma OrderlyParts(v: View, w: View, closes: seq<Front>, items: seq<Front>)
    requires forall i :: 0 <= i < |closes| ==> closes[i].Close? && closes[i].name in v.closed
    requires forall i :: 0 <= i < |items| ==> !items[i].Close? && (items[i].Parse? ==> Issued(w, items[i].name))
    ensures Orderly(v, w, closes + items + [Sync])
  {
    hide Issued;
  }

  lemma BatchIsOrderly(s: System, op: Op)
    requires Inv(s) && Enabled(s, op) && op.Batch?
    ensures s.view.seqNo <= PlanBatch(s.view, op.items).view.seqNo
    ensures PlanBatch(s.view, op.items).view.byKey == s.view.byKey
    ensures Orderly(s.view, PlanBatch(s.view, op.items).view, Written(s.view, op))
  {
    var v := s.view;
    var p := PlanBatch(v, op.items);
    var kept := s.srv.stmts.Keys - Listed(v.closed);
    KeptHeld(s);
    hide Issued, CacheInv, PlanBatch, ItemsFront, NamesAfter, WellNamed, Closes, Fresh, SeenIn;
    PlanIsWellNamed(v, kept, op.items);
    ParsedAreIssued(v, kept, p);
    ClosesOnly(v.closed);
    ItemsOnly(p.stages);
    OrderlyParts(v, p.view, Closes(v.closed), ItemsFront(p.stages));
  }

  /** Closing what is queued takes nothing the cache still names. */
  lemma KeptHeld(s: System)
    requires Inv(s)
    ensures AllIssued(s.view, s.srv.stmts.Keys - Listed(s.view.closed))
    ensures forall sql :: sql in s.view.byKey ==> s.view.byKey[sql] in s.srv.stmts.Keys - Listed(s.view.closed)
  {
    hide Issued;
  }

  lemma BatchNames(s: System, op: Op)
    requires Inv(s) && Enabled(s, op) && op.Batch?
    ensures var p := PlanBatch(s.view, op.items);
            var srv := ServeAll(s.srv, Written(s.view, op), op.fates).0;
      && s.view.seqNo <= p.view.seqNo && p.view.byKey == s.view.byKey
      && AllIssued(p.view, srv.stmts.Keys) && Held(s.view, srv.stmts)
  {
    hide NameOf, ServeAll, Issued, CacheInv, Held, AllIssued, Orderly, PlanBatch, Written;
    BatchIsOrderly(s, op);
    ServedNames(s.view, PlanBatch(s.view, op.items).view, s.srv, Written(s.view, op), op.fates);
  }

  lemma BatchCommittable(s: System, op: Op)
    requires Inv(s) && Enabled(s, op) && op.Batch?
    ensures var p := PlanBatch(s.view, op.items);
            Committable(p.view, p.stages, ServeAll(s.srv, Written(s.view, op), op.fates).0.stmts)
  {
    var v := s.view;
    var p := PlanBatch(v, op.items);
    var kept := s.srv.stmts.Keys - Listed(v.closed);
    PlanIsWellNamed(v, kept, op.items);
    ParsedOnce(v, op.items);
    BatchNames(s, op);
    TakenView(v, p.view);
    forall i | 0 <= i < |p.stages| && p.stages[i].hasParse
      ensures Free(p.view, p.stages[i].name)
    {
      assert p.stages[i].name in NamesAfter(kept, ItemsFront(p.stages));
    }
  }

  /** Every operation, with any failures anywhere, keeps the cache within what the server holds. */
  lemma OpKeepsInv(s: System, op: Op)
    requires Inv(s) && Enabled(s, op)
    ensures Inv(Apply(s, op))
  {
    match op
    case Prepare(_, _, _, _) => PrepareKeepsInv(s, op);
    case Batch(_, _, _, _) => BatchKeepsInv(s, op);
    case Run(sql, _) =>
      var front := Written(s.view, op);
      WritesAreWellNamed(s, op);
      WellNamedServes(s.srv, front, op.fates);
      ServeKeepsIssued(s.srv, front, op.fates);
      var srv' := ServeAll(s.srv, front, op.fates).0;
      forall q | q in s.view.byKey ensures s.view.byKey[q] in srv'.stmts && srv'.stmts[s.view.byKey[q]] == q {
        ServeKeepsText(s.srv, front, op.fates, s.view.byKey[q]);
      }
    case Invalidate(sql) =>
      if sql in s.view.byKey {
        EvictKeepsCacheInv(s.view, sql);
      }
  }

  function After(ops: seq<Op>): Option<System>
  {
    if ops == [] then Some(System(View(map[], [], 0), Server(map[], false, None, [])))
    else
      match After(ops[..|ops| - 1])
      case None => None
      case Some(s) => if Enabled(s, ops[|ops| - 1]) then Some(Apply(s, ops[|ops| - 1])) else None
  }

  lemma {:induction false} RunsKeepInv(ops: seq<Op>)
    requires After(ops).Some?
    ensures Inv(After(ops).value)
  {
    if ops != [] {
      RunsKeepInv(ops[..|ops| - 1]);
      OpKeepsInv(After(ops[..|ops| - 1]).value, ops[|ops| - 1]);
    }
  }

  /**
   After any run, with any failures, evictions and invalidations, the next operation writes a
   pipeline whose every Bind names a held or just-parsed statement and whose every Parse has a
   new name; so the server never answers that a statement is missing or already there.
  */
  lemma NamesNeverFail(ops: seq<Op>, op: Op)
    requires After(ops).Some? && Enabled(After(ops).value, op) && !op.Invalidate?
    ensures var s := After(ops).value;
      && WellNamed(s.srv.stmts.Keys, Written(s.view, op))
      && NoNameErrors(ServeAll(s.srv, Written(s.view, op), FatesOfOp(op)).1)
  {
    RunsKeepInv(ops);
    var s := After(ops).value;
    WritesAreWellNamed(s, op);
    WellNamedServes(s.srv, Written(s.view, op), FatesOfOp(op));
  }

  // ---- Every item executes its own text --------------------------------------------------------------

  ghost predicate Stands(names: map<Sql, Name>, stmts: map<Name, Sql>)
  {
    forall sql :: sql in names ==> names[sql] in stmts && stmts[names[sql]] == sql
  }

  /** Behind the planned items, every name the batch or the cache knows stands for its own text. */
  ghost predicate PlanStands(v: View, stmts: map<Name, Sql>, items: seq<Sql>, p: Plan)
  {
    var after := StmtsAfter(stmts, p.stages);
    && |p.stages| == |items| && ItemTexts(stmts, p.stages) == items
    && Stands(p.seen, after) && Stands(v.byKey, after) && AllIssued(p.view, after.Keys) && p.view.byKey == v.byKey
  }

  /** A new name takes no name's text away. */
  lemma StandsMore(names: map<Sql, Name>, stmts: map<Name, Sql>, sql: Sql, name: Name)
    requires Stands(names, stmts) && name !in stmts
    ensures Stands(names, stmts[name := sql]) && Stands(names[sql := name], stmts[name := sql])
  {
  }

  lemma StandsSame(names: map<Sql, Name>, stmts: map<Name, Sql>, sql: Sql, name: Name)
    requires Stands(names, stmts) && name in stmts && stmts[name] == sql
    ensures Stands(names[sql := name], stmts)
  {
  }

  lemma KeysMore(v: View, m: map<Name, Sql>, name: Name, sql: Sql)
    requires AllIssued(v, m.Keys + {name})
    ensures AllIssued(v, m[name := sql].Keys)
  {
    assert m[name := sql].Keys == m.Keys + {name};
  }

  /** What the next stage does to names and texts. */
  lemma StageStands(v: View, p: Plan, q: Plan, m: map<Name, Sql>, sql: Sql, stage: Stage)
    requires Stands(p.seen, m) && Stands(v.byKey, m) && AllIssued(p.view, m.Keys) && p.view.byKey == v.byKey
    requires stage.sql == sql && q.seen == p.seen[sql := stage.name]
    requires if stage.hasParse
             then stage.name == NameOf(p.view.seqNo + 1) && q.view == p.view.(seqNo := p.view.seqNo + 1)
             else q.view == p.view && ((sql in p.seen && stage.name == p.seen[sql])
                                    || (sql in p.view.byKey && stage.name == p.view.byKey[sql]))
    ensures var after := StmtsNext(m, stage);
            Stands(q.seen, after) && Stands(v.byKey, after) && AllIssued(q.view, after.Keys) && TextOf(after, stage.name) == sql
  {
    hide AllIssued, Stands, NameOf;
    if stage.hasParse {
      NextNameIsNew(p.view, m.Keys);
      StandsMore(p.seen, m, sql, stage.name);
      StandsMore(v.byKey, m, sql, stage.name);
      KeysMore(q.view, m, stage.name, sql);
    } else {
      KnownName(v, p, m, sql, stage.name);
      StandsSame(p.seen, m, sql, stage.name);
    }
  }

  lemma TextsAppended(stmts: map<Name, Sql>, stages: seq<Stage>, stage: Stage, items: seq<Sql>, sql: Sql)
    requires ItemTexts(stmts, stages) == items && TextOf(StmtsNext(StmtsAfter(stmts, stages), stage), stage.name) == sql
    ensures ItemTexts(stmts, stages + [stage]) == items + [sql]
    ensures StmtsAfter(stmts, stages + [stage]) == StmtsNext(StmtsAfter(stmts, stages), stage)
  {
    hide StmtsAfter, ItemTexts, StmtsNext, TextOf;
    assert (stages + [stage])[..|stages|] == stages;
    TextsOfLast(stmts, stages + [stage]);
  }

  lemma PlanTextsStep(v: View, stmts: map<Name, Sql>, items: seq<Sql>)
    requires items != [] && PlanStands(v, stmts, items[..|items| - 1], PlanBatch(v, items[..|items| - 1]))
    ensures PlanStands(v, stmts, items, PlanBatch(v, items))
  {
    hide PlanBatch, AllIssued, Stands, NameOf, StmtsAfter, ItemTexts, StmtsNext, TextOf;
    PlanGrows(v, items);
    PlanStages(v, items);
    var n := |items| - 1;
    var p, q := PlanBatch(v, items[..n]), PlanBatch(v, items);
    var stage := q.stages[n];
    StageStands(v, p, q, StmtsAfter(stmts, p.stages), items[n], stage);
    TextsAppended(stmts, p.stages, stage, items[..n], items[n]);
    assert items == items[..n] + [items[n]];
  }

  lemma KnownName(v: View, p: Plan, m: map<Name, Sql>, sql: Sql, name: Name)
    requires Stands(p.seen, m) && Stands(v.byKey, m) && p.view.byKey == v.byKey
    requires (sql in p.seen && name == p.seen[sql]) || (sql in p.view.byKey && name == p.view.byKey[sql])
    ensures name in m && m[name] == sql
  {
  }

  lemma PlanStages(v: View, items: seq<Sql>)
    requires items != []
    ensures var q := PlanBatch(v, items); |q.stages| == |items| && q.stages[|items| - 1].sql == items[|items| - 1]
  {
    ParsedOnce(v, items);
  }

  /** New, cached and repeated texts alike: an item's name stands for the item's text. */
  lemma {:induction false} PlanTexts(v: View, stmts: map<Name, Sql>, items: seq<Sql>)
    requires Held(v, stmts) && AllIssued(v, stmts.Keys)
    ensures PlanStands(v, stmts, items, PlanBatch(v, items))
  {
    if items == [] {
      assert ItemTexts(stmts, []) == [];
      assert v.(closed := []).seqNo == v.seqNo;
      SameIssued(v, v.(closed := []), stmts.Keys);
    } else {
      PlanTexts(v, stmts, items[..|items| - 1]);
      PlanTextsStep(v, stmts, items);
    }
  }

  /** How many items the server executes: all before the first that fails. */
  ghost predicate FirstFailing(names: set<Name>, stages: seq<Stage>, fates: seq<Fate>, g: nat)
    requires |fates| == |ItemsFront(stages)|
  {
    && g <= |stages| && (forall i :: 0 <= i < g ==> ItemError(names, stages, fates, i).None?)
    && (g < |stages| ==> ItemError(names, stages, fates, g).Some?)
  }

  lemma GoodAreFirst(names: set<Name>, stages: seq<Stage>, fates: seq<Fate>, blocks: seq<Block>)
    requires |fates| == |ItemsFront(stages)| && BlocksMatch(names, stages, fates, blocks)
    ensures FirstFailing(names, stages, fates, GoodCount(blocks))
  {
    hide ItemError, ItemTag;
    forall i | 0 <= i < GoodCount(blocks) ensures ItemError(names, stages, fates, i).None? {
      assert BlockFits(blocks[i], ItemError(names, stages, fates, i), ItemTag(stages, fates, i));
    }
    var g := GoodCount(blocks);
    if g < |stages| {
      assert BlockFits(blocks[g], ItemError(names, stages, fates, g), ItemTag(stages, fates, g));
    }
  }

  lemma KeptStmts(s: System)
    requires Inv(s)
    ensures var kept := s.srv.stmts - Listed(s.view.closed);
            Held(s.view, kept) && AllIssued(s.view, kept.Keys) && kept.Keys == s.srv.stmts.Keys - Listed(s.view.closed)
  {
    hide Issued;
  }

  lemma BatchRuns(s: System, op: Op) returns (g: nat)
    requires Inv(s) && Enabled(s, op) && op.Batch?
    ensures var stages := PlanBatch(s.view, op.items).stages;
            var own := op.fates[|Closes(s.view.closed)|..][..|ItemsFront(stages)|];
      && |own| == |ItemsFront(stages)| && |stages| == |op.items|
      && FirstFailing(s.srv.stmts.Keys - Listed(s.view.closed), stages, own, g)
      && ServeAll(s.srv, Written(s.view, op), op.fates).0.ran == s.srv.ran + op.items[..g]
  {
    hide ServeAll, PlanBatch, Closes, ItemsFront, BlocksMatch, NamesServed, Responses, AllIssued, Held, CacheInv, Inv,
         FirstFailing, HasError, TailFits;
    InvServes(s);
    KeptStmts(s);
    var v := s.view;
    var stages := PlanBatch(v, op.items).stages;
    BatchLength(v.closed, stages);
    var preamble, blocks, tail := ServeBatch(s.srv, v.closed, stages, op.fates);
    g := GoodCount(blocks);
    GoodAreFirst(s.srv.stmts.Keys - Listed(v.closed), stages,
                 op.fates[|Closes(v.closed)|..][..|ItemsFront(stages)|], blocks);
    PlanTexts(v, s.srv.stmts - Listed(v.closed), op.items);
  }

  lemma RunRuns(s: System, op: Op) returns (g: nat)
    requires Inv(s) && Enabled(s, op) && op.Run?
    ensures var bind: seq<Front> := [Bind(s.view.byKey[op.sql]), Execute];
            var srv := ServeAll(s.srv, Written(s.view, op), op.fates).0;
      && NoSyncIn(bind) && |op.fates| == 3
      && g == (if FirstError(s.srv.stmts.Keys, bind, op.fates[..2]).None? then 1 else 0)
      && srv.ran == s.srv.ran + [op.sql][..g]
  {
    var name := s.view.byKey[op.sql];
    var bind: seq<Front> := [Bind(name), Execute];
    var stage := Stage(op.sql, name, false);
    assert [] + bind == bind && ItemFront(stage) == bind;
    assert Written(s.view, op) == bind + [Sync];
    hide ServeAll, FirstError, NamesAfter, ItemFront, Inv, AllQuiet, BlockReplies;
    assert !s.srv.skipping && TextOf(s.srv.stmts, name) == op.sql by { InvHolds(s, op.sql); }
    ServeConcat(s.srv, bind, [Sync], op.fates);
    var b := ServeItem(s.srv, stage, op.fates[..2]);
    var (srv1, r1) := ServeAll(s.srv, bind, op.fates[..2]);
    ServeSync(srv1, op.fates[2..]);
    g := if b.Good? then 1 else 0;
    assert [op.sql][..g] == if g == 1 then [op.sql] else [];
  }

  lemma InvHolds(s: System, sql: Sql)
    requires Inv(s) && sql in s.view.byKey
    ensures !s.srv.skipping && TextOf(s.srv.stmts, s.view.byKey[sql]) == sql
  {
  }

  lemma PrepareRuns(s: System, op: Op)
    requires Inv(s) && Enabled(s, op) && op.Prepare?
    ensures ServeAll(s.srv, Written(s.view, op), op.fates).0.ran == s.srv.ran
  {
    hide ServeAll, Inv;
    InvServes(s);
    var v := s.view;
    var name := NameOf(v.seqNo + 1);
    var prep := [Parse(name, op.sql), Describe(name)];
    var k := |Closes(v.closed)|;
    assert [Parse(name, op.sql), Describe(name), Sync] == prep + [Sync];
    ServeConcat(s.srv, Closes(v.closed), prep + [Sync], op.fates);
    ServeCloses(s.srv, v.closed, op.fates[..k]);
    var (srv1, r1) := ServeAll(s.srv, Closes(v.closed), op.fates[..k]);
    ServeConcat(srv1, prep, [Sync], op.fates[k..]);
    var (srv2, r2) := ServeAll(srv1, prep, op.fates[k..][..2]);
    var b := ServePrepare(srv1, Stage(op.sql, name, true), op.fates[k..][..2]);
    ServeSync(srv2, op.fates[k..][2..]);
  }

  /**
   After any run the server executes, for the next operation, exactly the texts it was given: that
   of a cached statement if nothing fails, and those of a batch's items up to the first that fails.
  */
  lemma OwnTextsRun(ops: seq<Op>, op: Op) returns (g: nat)
    requires After(ops).Some? && Enabled(After(ops).value, op) && !op.Invalidate?
    ensures var s := After(ops).value;
            var ran := ServeAll(s.srv, Written(s.view, op), op.fates).0.ran;
      match op
      case Prepare(_, _, _, _) => ran == s.srv.ran
      case Run(sql, fates) =>
        var bind: seq<Front> := [Bind(s.view.byKey[sql]), Execute];
        && NoSyncIn(bind) && g == (if FirstError(s.srv.stmts.Keys, bind, fates[..2]).None? then 1 else 0)
        && ran == s.srv.ran + [sql][..g]
      case Batch(items, _, _, fates) =>
        var stages := PlanBatch(s.view, items).stages;
        var own := fates[|Closes(s.view.closed)|..][..|ItemsFront(stages)|];
        && |own| == |ItemsFront(stages)| && |stages| == |items|
        && FirstFailing(s.srv.stmts.Keys - Listed(s.view.closed), stages, own, g)
        && ran == s.srv.ran + items[..g]
  {
    hide ServeAll, PlanBatch, Closes, ItemsFront, FirstError, FirstFailing, Inv, Written;
    RunsKeepInv(ops);
    var s := After(ops).value;
    g := 0;
    match op
    case Prepare(_, _, _, _) => PrepareRuns(s, op);
    case Run(sql, fates) =>
      g := RunRuns(s, op);
    case Batch(_, _, _, _) => g := BatchRuns(s, op);
  }
}
