/**
 Batches (pgz/pipeline.go): many statements in one write, and the reader that hands each item
 the answer that belongs to it.
*/
module Pipeline {
  import opened Bytes
  import opened Protocol
  import opened StmtCache

  // ---- Sending ------------------------------------------------------------------------

  /** What SendBatch decided for one item. */
  datatype Stage = Stage(sql: Sql, name: Name, hasParse: bool)

  function Closes(names: seq<Name>): seq<Front>
  {
    if names == [] then [] else Closes(names[..|names| - 1]) + [Front.Close(names[|names| - 1])]
  }

  function ItemFront(stage: Stage): seq<Front>
  {
    (if stage.hasParse then [Parse(stage.name, stage.sql), Describe(stage.name)] else [])
    + [Bind(stage.name), Execute]
  }

  function ItemsFront(stages: seq<Stage>): seq<Front>
  {
    if stages == [] then [] else ItemsFront(stages[..|stages| - 1]) + ItemFront(stages[|stages| - 1])
  }

  function BatchFront(pending: seq<Name>, stages: seq<Stage>): seq<Front>
  {
    Closes(pending) + ItemsFront(stages) + [Sync]
  }

  datatype Plan = Plan(view: View, seen: map<Sql, Name>, stages: seq<Stage>)

  /** One more item: a name from earlier in the batch, a cached one, or a new one. */
  function PlanNext(p: Plan, sql: Sql): Plan
  {
    if sql in p.seen then p.(stages := p.stages + [Stage(sql, p.seen[sql], false)])
    else if sql in p.view.byKey then
      p.(seen := p.seen[sql := p.view.byKey[sql]], stages := p.stages + [Stage(sql, p.view.byKey[sql], false)])
    else
      var name := NameOf(p.view.seqNo + 1);
      Plan(p.view.(seqNo := p.view.seqNo + 1), p.seen[sql := name], p.stages + [Stage(sql, name, true)])
  }

  /** The decisions for a whole batch. */
  function PlanBatch(v: View, items: seq<Sql>): Plan
  {
    if items == [] then Plan(v.(closed := []), map[], [])
    else PlanNext(PlanBatch(v, items[..|items| - 1]), items[|items| - 1])
  }

  lemma PlanOne(v: View, items: seq<Sql>, i: nat)
    requires i < |items|
    ensures PlanBatch(v, items[..i + 1]) == PlanNext(PlanBatch(v, items[..i]), items[i])
  {
    hide PlanNext;
    assert items[..i + 1][..i] == items[..i];
  }

  lemma PlanNone(v: View, items: seq<Sql>)
    ensures PlanBatch(v, items[..0]) == Plan(v.(closed := []), map[], []) && ItemsFront([]) == []
  {
  }

  lemma OneMoreItem(stages: seq<Stage>, stage: Stage)
    ensures ItemsFront(stages + [stage]) == ItemsFront(stages) + ItemFront(stage)
  {
    hide ItemFront;
    assert (stages + [stage])[..|stages|] == stages;
  }

  /** The Close messages for the statements the cache has dropped. */
  method WriteCloses(pending: seq<Name>) returns (front: seq<Front>)
    ensures front == Closes(pending)
  {
    front := [];
    for i := 0 to |pending|
      invariant front == Closes(pending[..i])
    {
      assert pending[..i + 1][..i] == pending[..i];
      front := front + [Front.Close(pending[i])];
    }
    assert pending[..|pending|] == pending;
  }

  method SendBatch(stmts: StmtCache, items: seq<Sql>) returns (front: seq<Front>, stages: seq<Stage>)
    requires stmts.Valid()
    modifies stmts
    ensures stmts.Valid()
    ensures var p := PlanBatch(old(stmts.Contents()), items);
      stmts.Contents() == p.view && stages == p.stages && front == BatchFront(old(stmts.closed), p.stages)
  {
    hide PlanBatch, ItemsFront, ItemFront, Closes, NameOf;
    ghost var v := stmts.Contents();
    var pending := stmts.TakePendingClose();
    front := WriteCloses(pending);
    stages := [];
    var seen := map[];
    PlanNone(v, items);
    for i := 0 to |items|
      invariant stmts.Valid()
      invariant Plan(stmts.Contents(), seen, stages) == PlanBatch(v, items[..i])
      invariant front == Closes(pending) + ItemsFront(stages)
    {
      var sql := items[i];
      PlanOne(v, items, i);
      var cached := stmts.Get(sql);
      var stage;
      if sql in seen {
        stage := Stage(sql, seen[sql], false);
      } else if cached.Some? {
        stage := Stage(sql, cached.value, false);
        seen := seen[sql := cached.value];
      } else {
        var name := stmts.NextName();
        stage := Stage(sql, name, true);
        seen := seen[sql := name];
      }
      front := WriteItem(front, stage);
      OneMoreItem(stages, stage);
      stages := stages + [stage];
    }
    assert items[..|items|] == items;
    front := front + [Sync];
  }

  /** Parse and Describe for a first-of-kind item, then Bind and Execute. */
  method WriteItem(buf: seq<Front>, stage: Stage) returns (out: seq<Front>)
    ensures out == buf + ItemFront(stage)
  {
    out := buf;
    if stage.hasParse {
      out := out + [Parse(stage.name, stage.sql)];
      out := out + [Describe(stage.name)];
    }
    out := out + [Bind(stage.name)];
    out := out + [Execute];
  }

  /** Item `i` is the first of the batch with its SQL text. */
  predicate First(items: seq<Sql>, i: nat)
    requires i < |items|
  {
    forall j :: 0 <= j < i ==> items[j] != items[i]
  }

  ghost predicate PlanLaw(v: View, items: seq<Sql>, p: Plan)
  {
    && |p.stages| == |items|
    && p.view.byKey == v.byKey && p.view.closed == []
    && (forall sql :: sql in p.seen <==> sql in items)
    && (forall i :: 0 <= i < |items| ==>
          && p.stages[i].sql == items[i]
          && p.seen[items[i]] == p.stages[i].name
          && (p.stages[i].hasParse <==> items[i] !in v.byKey && First(items, i)))
  }

  lemma PlanLawStep(v: View, items: seq<Sql>, sql: Sql)
    requires PlanLaw(v, items, PlanBatch(v, items))
    ensures PlanLaw(v, items + [sql], PlanBatch(v, items + [sql]))
  {
    var all := items + [sql];
    assert all[..|items|] == items;
    var p, q := PlanBatch(v, items), PlanBatch(v, all);
    forall i | 0 <= i < |all|
      ensures q.stages[i].sql == all[i] && all[i] in q.seen && q.seen[all[i]] == q.stages[i].name
      ensures q.stages[i].hasParse <==> all[i] !in v.byKey && First(all, i)
    {
      if i < |items| {
        assert q.stages[i] == p.stages[i] && all[i] == items[i];
        assert First(all, i) <==> First(items, i);
        assert items[i] in p.seen;
      } else {
        assert First(all, i) <==> sql !in items;
      }
    }
  }

  lemma PlanLawNone(v: View)
    ensures PlanLaw(v, [], PlanBatch(v, []))
  {
  }

  /**
   Each distinct SQL text is Parsed exactly when it is not cached, and then only for the first
   item that has it; all items with one text use one statement name.
  */
  lemma {:induction false} ParsedOnce(v: View, items: seq<Sql>)
    ensures PlanLaw(v, items, PlanBatch(v, items))
  {
    hide PlanLaw, PlanBatch;
    if items == [] {
      PlanLawNone(v);
      assert items == [];
    } else {
      var n := |items| - 1;
      ParsedOnce(v, items[..n]);
      PlanLawStep(v, items[..n], items[n]);
      assert items == items[..n] + [items[n]];
    }
  }

  // ---- The server's answer -----------------------------------------------------------------

  /** The server's answer to one item: it ends in a completion or in an error. */
  datatype Block = Good(quiet: seq<Reply>, tag: Option<string>) | Bad(quiet: seq<Reply>, err: Error)

  /** Messages that may precede the end of an item's answer. */
  predicate Quiet(r: Reply)
  {
    || r.ParseComplete? || r.ParameterDescription? || r.RowDescription? || r.NoData?
    || r.BindComplete? || r.DataRow? || r.Asynchronous?
  }

  predicate AllQuiet(rs: seq<Reply>) { forall i :: 0 <= i < |rs| ==> Quiet(rs[i]) }

  function End(b: Block): Reply { if b.Good? then Finish(b.tag) else ErrorResponse(b.err) }

  function BlockReplies(b: Block): seq<Reply> { b.quiet + [End(b)] }

  /** The answers in order, then whatever the server still has to say and ReadyForQuery. */
  function Responses(blocks: seq<Block>, tail: seq<Reply>): seq<Reply>
  {
    if blocks == [] then tail + [ReadyForQuery] else BlockReplies(blocks[0]) + Responses(blocks[1..], tail)
  }

  predicate AllAsync(rs: seq<Reply>) { forall i :: 0 <= i < |rs| ==> rs[i].Asynchronous? }

  /** Behind the answers: asynchronous messages, and the error of a failed Sync if no item failed. */
  predicate TailFits(blocks: seq<Block>, tail: seq<Reply>)
  {
    && (forall i :: 0 <= i < |tail| ==> tail[i].Asynchronous? || tail[i].ErrorResponse?)
    && (blocks != [] && blocks[|blocks| - 1].Bad? ==> AllAsync(tail))
  }

  /** The answers to `n` items: all good, or good up to a first bad one, after which nothing comes. */
  predicate AnswersTo(n: nat, blocks: seq<Block>)
  {
    && |blocks| <= n
    && (forall i :: 0 <= i < |blocks| ==> AllQuiet(blocks[i].quiet))
    && (forall i :: 0 <= i < |blocks| - 1 ==> blocks[i].Good?)
    && (|blocks| < n ==> blocks != [] && blocks[|blocks| - 1].Bad?)
  }

  // ---- Reading --------------------------------------------------------------------------------

  datatype Result =
    | Ok(tag: Option<string>)
    | ServerError(err: Error)
    | BatchAborted
    | Unexpected(reply: Reply)
    | ConnectionLost
    | EndOfBatch
    | AlreadyClosed

  datatype Reading = Reading(result: Result, rest: seq<Reply>, done: bool)

  /** readItemExec over the messages that are still to come. */
  function ReadItem(input: seq<Reply>, err: Option<Error>): Reading
    decreases |input|
  {
    if input == [] then Reading(ConnectionLost, [], false)
    else
      var rest := input[1..];
      match input[0]
      case CommandComplete(tag) => Reading(if err.Some? then ServerError(err.value) else Ok(Some(tag)), rest, false)
      case EmptyQueryResponse => Reading(if err.Some? then ServerError(err.value) else Ok(None), rest, false)
      case ErrorResponse(e) => ReadItem(rest, Some(e))
      case ReadyForQuery => Reading(if err.Some? then ServerError(err.value) else BatchAborted, rest, true)
      case CloseComplete => Reading(Unexpected(CloseComplete), rest, false)
      case _ => ReadItem(rest, err)
  }

  /** skipItem: (what is left, whether ReadyForQuery was met). */
  function SkipItem(input: seq<Reply>): (seq<Reply>, bool)
    decreases |input|
  {
    if input == [] then ([], false)
    else
      match input[0]
      case CommandComplete(_) => (input[1..], false)
      case EmptyQueryResponse => (input[1..], false)
      case ReadyForQuery => (input[1..], true)
      case _ => SkipItem(input[1..])
  }

  /** What a caller should get for item `i`. */
  function Expected(blocks: seq<Block>, i: nat): Result
  {
    if i < |blocks| then (if blocks[i].Good? then Ok(blocks[i].tag) else ServerError(blocks[i].err)) else BatchAborted
  }

  /** `input` still holds exactly one ReadyForQuery of this batch, followed by `after`. */
  predicate Ahead(input: seq<Reply>, after: seq<Reply>)
  {
    |input| > |after| && input[|input| - |after|..] == after
    && input[|input| - |after| - 1] == ReadyForQuery
    && forall i :: 0 <= i < |input| - |after| - 1 ==> input[i] != ReadyForQuery
  }

  class BatchResults {
    const n: nat
    const stages: seq<Stage>
    var idx: nat
    var done: bool
    var aborted: bool
    var closed: bool
    var input: seq<Reply>        // what the connection has yet to deliver
    ghost const blocks: seq<Block>
    ghost const tail: seq<Reply>
    ghost const after: seq<Reply> // whatever follows this batch on the connection

    ghost predicate Valid()
      reads this
    {
      && |stages| == n && idx <= n
      && (if done then input == after && (aborted || closed) else Ahead(input, after))
    }

    /** The reader stands at the start of the next item's answer. */
    ghost predicate InStep()
      reads this
    {
      && AnswersTo(n, blocks) && TailFits(blocks, tail)
      && (!aborted ==> idx <= |blocks| && input == Responses(blocks[idx..], tail) + after
                       && forall i :: 0 <= i < idx ==> blocks[i].Good?)
      && (aborted ==> |blocks| <= idx && blocks != [] && blocks[|blocks| - 1].Bad?)
    }

    /** Right after SendBatch: the answers to Close messages, if any were sent, come first. */
    constructor (stages: seq<Stage>, ghost preamble: seq<Reply>, ghost blocks: seq<Block>, ghost tail: seq<Reply>,
                 ghost after: seq<Reply>, input: seq<Reply>)
      requires AnswersTo(|stages|, blocks) && TailFits(blocks, tail) && IsPreamble(preamble)
      requires input == preamble + (Responses(blocks, tail) + after)
      ensures Valid() && !closed && !aborted && idx == 0
      ensures this.n == |stages| && this.stages == stages
      ensures this.blocks == blocks && this.tail == tail && this.after == after && this.input == input
      ensures preamble == [] ==> InStep()
    {
      this.n, this.stages := |stages|, stages;
      idx, done, aborted, closed := 0, false, false, false;
      this.input, this.blocks, this.tail, this.after := input, blocks, tail, after;
      new;
      ResponsesAhead(preamble, blocks, tail, after);
      assert blocks[0..] == blocks;
    }

    method ReadItemExec() returns (result: Result)
      modifies `input, `done
      ensures Reading(result, input, done) == ReadItem(old(input), None).(done := old(done) || ReadItem(old(input), None).done)
    {
      var pgError: Option<Error> := None;
      while true
        invariant ReadItem(input, pgError) == ReadItem(old(input), None)
        invariant done == old(done)
        decreases |input|
      {
        if input == [] {
          return ConnectionLost;
        }
        var m := input[0];
        input := input[1..];
        match m {
          case CommandComplete(tag) =>
            return if pgError.Some? then ServerError(pgError.value) else Ok(Some(tag));
          case EmptyQueryResponse =>
            return if pgError.Some? then ServerError(pgError.value) else Ok(None);
          case ErrorResponse(e) =>
            pgError := Some(e);
          case ReadyForQuery =>
            done := true;
            return if pgError.Some? then ServerError(pgError.value) else BatchAborted;
          case CloseComplete =>
            return Unexpected(CloseComplete);
          case _ =>
        }
      }
    }

    /** Keeps a first-of-kind statement for later use. */
    method CommitStage(stmts: StmtCache, stage: Stage) returns (ghost victim: Option<Sql>)
      requires stmts.Valid()
      modifies stmts
      ensures stmts.Valid()
      ensures stmts.Contents() == if stage.hasParse then PutView(old(stmts.Contents()), stage.sql, stage.name, victim)
                                  else old(stmts.Contents())
    {
      victim := None;
      if stage.hasParse {
        victim := stmts.Put(stage.sql, stage.name);
      }
    }

    /** The next item's result. */
    method Exec(stmts: StmtCache) returns (result: Result, ghost victim: Option<Sql>)
      requires Valid() && stmts.Valid()
      modifies this, stmts
      ensures Valid() && stmts.Valid() && closed == old(closed)
      ensures old(closed) ==> result == AlreadyClosed
      ensures !old(closed) && old(idx) >= n ==> result == EndOfBatch
      ensures old(closed) || old(idx) >= n ==> idx == old(idx) && input == old(input) && aborted == old(aborted)
      ensures !old(closed) && old(idx) < n ==> idx == old(idx) + 1
      ensures !old(closed) && old(idx) < n && old(InStep()) ==> InStep() && result == Expected(blocks, old(idx))
      ensures !old(closed) && old(idx) < n && old(aborted) ==> result == BatchAborted && aborted && input == old(input)
      ensures !old(closed) && old(idx) < n && !old(aborted) ==>
        result == ReadItem(old(input), None).result && input == ReadItem(old(input), None).rest && aborted == !result.Ok?
      ensures !old(closed) && old(idx) < n && !old(aborted) && OutOfStep(old(input))
        ==> result == Unexpected(CloseComplete) && aborted
      ensures stmts.Contents() ==
        if result.Ok? && stages[old(idx)].hasParse
        then PutView(old(stmts.Contents()), stages[old(idx)].sql, stages[old(idx)].name, victim)
        else old(stmts.Contents())
    {
      hide Responses, ReadItem, OutOfStep, PutView, TailFits;
      victim := None;
      if closed {
        return AlreadyClosed, None;
      }
      if idx >= n {
        return EndOfBatch, None;
      }
      var stage := stages[idx];
      idx := idx + 1;
      if aborted {
        return BatchAborted, None;
      }
      ReadItemAhead(input, after, None);
      if old(InStep()) {
        ReadInStep(blocks, idx - 1, tail, after, n);
      }
      result := ReadItemExec();
      if result.Ok? {
        victim := CommitStage(stmts, stage);
      } else {
        aborted := true;
      }
    }

    /** Drains the batch: the connection is left right behind its ReadyForQuery. */
    method Close()
      requires Valid()
      modifies this
      ensures closed
      ensures !old(closed) ==> input == after && done
      ensures old(closed) ==> input == old(input)
    {
      if closed {
        return;
      }
      closed := true;
      while idx < n && !done
        invariant idx <= n && closed
        invariant if done then input == after else Ahead(input, after)
        decreases n - idx
      {
        SkipItemAhead(input, after);
        var (rest, met) := SkipItem(input);
        input := rest;
        done := met;
        idx := idx + 1;
      }
      while !done
        invariant closed
        invariant if done then input == after else Ahead(input, after)
        decreases |input|, !done
      {
        var m := input[0];
        AheadNext(input, after);
        input := input[1..];
        if m == ReadyForQuery {
          done := true;
        }
      }
    }
  }

  /** Answers to Close messages, with asynchronous messages between them. */
  predicate IsPreamble(rs: seq<Reply>) { forall i :: 0 <= i < |rs| ==> rs[i].Asynchronous? || rs[i].CloseComplete? }

  /** A CloseComplete is the next thing that is not asynchronous. */
  predicate OutOfStep(input: seq<Reply>)
    decreases |input|
  {
    input != [] && (input[0].CloseComplete? || (input[0].Asynchronous? && OutOfStep(input[1..])))
  }

  lemma ResponsesAhead(preamble: seq<Reply>, blocks: seq<Block>, tail: seq<Reply>, after: seq<Reply>)
    requires forall i :: 0 <= i < |blocks| ==> AllQuiet(blocks[i].quiet)
    requires TailFits(blocks, tail) && IsPreamble(preamble)
    ensures Ahead(preamble + (Responses(blocks, tail) + after), after)
  {
    ResponsesEnd(blocks, tail);
  }

  lemma {:induction false} ResponsesEnd(blocks: seq<Block>, tail: seq<Reply>)
    requires forall i :: 0 <= i < |blocks| ==> AllQuiet(blocks[i].quiet)
    requires TailFits(blocks, tail)
    ensures var r := Responses(blocks, tail);
            |r| > 0 && r[|r| - 1] == ReadyForQuery && forall i :: 0 <= i < |r| - 1 ==> r[i] != ReadyForQuery
  {
    if blocks != [] {
      ResponsesEnd(blocks[1..], tail);
    }
  }

  lemma AheadNext(input: seq<Reply>, after: seq<Reply>)
    requires Ahead(input, after)
    ensures input != []
    ensures if input[0] == ReadyForQuery then input[1..] == after else Ahead(input[1..], after)
  {
    if input[0] == ReadyForQuery {
      assert |input| == |after| + 1;
    }
  }

  lemma {:induction false} ReadItemAhead(input: seq<Reply>, after: seq<Reply>, err: Option<Error>)
    requires Ahead(input, after)
    ensures var r := ReadItem(input, err);
      && (if r.done then r.rest == after && !r.result.Ok? else Ahead(r.rest, after))
      && (OutOfStep(input) ==> r.result == Unexpected(CloseComplete))
    decreases |input|
  {
    AheadNext(input, after);
    match input[0]
    case CommandComplete(_) =>
    case EmptyQueryResponse =>
    case ReadyForQuery =>
    case CloseComplete =>
    case ErrorResponse(e) => ReadItemAhead(input[1..], after, Some(e));
    case _ => ReadItemAhead(input[1..], after, err);
  }

  lemma {:induction false} SkipItemAhead(input: seq<Reply>, after: seq<Reply>)
    requires Ahead(input, after)
    ensures var (rest, met) := SkipItem(input);
            if met then rest == after else Ahead(rest, after)
    decreases |input|
  {
    AheadNext(input, after);
    match input[0]
    case CommandComplete(_) =>
    case EmptyQueryResponse =>
    case ReadyForQuery =>
    case _ => SkipItemAhead(input[1..], after);
  }

  lemma {:induction false} ReadQuiet(quiet: seq<Reply>, rest: seq<Reply>, err: Option<Error>)
    requires AllQuiet(quiet)
    ensures ReadItem(quiet + rest, err) == ReadItem(rest, err)
    decreases |quiet|
  {
    if quiet == [] {
      assert quiet + rest == rest;
    } else {
      assert (quiet + rest)[1..] == quiet[1..] + rest;
      assert Quiet((quiet + rest)[0]);
      ReadQuiet(quiet[1..], rest, err);
    }
  }

  /** One item's answer gives that item's result and leaves the next answer in front. */
  lemma ReadInStep(blocks: seq<Block>, i: nat, tail: seq<Reply>, after: seq<Reply>, n: nat)
    requires AnswersTo(n, blocks) && TailFits(blocks, tail) && i < n && i <= |blocks|
    requires forall j :: 0 <= j < i ==> blocks[j].Good?
    ensures i < |blocks|
    ensures var r := ReadItem(Responses(blocks[i..], tail) + after, None);
            r.result == Expected(blocks, i)
            && (blocks[i].Good? ==> r.rest == Responses(blocks[i + 1..], tail) + after && !r.done)
            && (blocks[i].Bad? ==> r.rest == after && r.done && |blocks| == i + 1)
  {
    hide ReadItem;
    var b := blocks[i];
    assert blocks[i..][1..] == blocks[i + 1..];
    var next := Responses(blocks[i + 1..], tail) + after;
    var input := Responses(blocks[i..], tail) + after;
    assert input == b.quiet + ([End(b)] + next);
    ReadQuiet(b.quiet, [End(b)] + next, None);
    ReadEnd(b, next);
    if b.Bad? {
      assert blocks[i + 1..] == [];
      assert next == tail + ([ReadyForQuery] + after);
      ReadQuiet(tail, [ReadyForQuery] + after, Some(b.err));
      ReadReady(after, b.err);
    }
  }

  lemma ReadEnd(b: Block, next: seq<Reply>)
    ensures ReadItem([End(b)] + next, None)
         == if b.Good? then Reading(Ok(b.tag), next, false) else ReadItem(next, Some(b.err))
  {
    assert ([End(b)] + next)[1..] == next;
  }

  lemma ReadReady(after: seq<Reply>, err: Error)
    ensures ReadItem([ReadyForQuery] + after, Some(err)) == Reading(ServerError(err), after, true)
  {
    assert ([ReadyForQuery] + after)[1..] == after;
  }

  // ---- From the server to the reader -----------------------------------------------------------

  function Flat(blocks: seq<Block>): seq<Reply>
  {
    if blocks == [] then [] else Flat(blocks[..|blocks| - 1]) + BlockReplies(blocks[|blocks| - 1])
  }

  lemma {:induction false} FlatFront(blocks: seq<Block>)
    requires blocks != []
    ensures Flat(blocks) == BlockReplies(blocks[0]) + Flat(blocks[1..])
  {
    var n := |blocks| - 1;
    if n > 0 {
      FlatFront(blocks[..n]);
      assert blocks[..n][1..] == blocks[1..][..n - 1];
    }
  }

  lemma {:induction false} ResponsesAreFlat(blocks: seq<Block>, tail: seq<Reply>)
    ensures Responses(blocks, tail) == Flat(blocks) + (tail + [ReadyForQuery])
  {
    if blocks != [] {
      FlatFront(blocks);
      ResponsesAreFlat(blocks[1..], tail);
    }
  }

  /** Item `i`'s messages stand between those of the items before it and those behind it. */
  lemma {:induction false} ItemSpan(stages: seq<Stage>, i: nat)
    requires i < |stages|
    ensures |ItemsFront(stages[..i])| + |ItemFront(stages[i])| == |ItemsFront(stages[..i + 1])| <= |ItemsFront(stages)|
  {
    hide ItemFront;
    assert stages[..i + 1][..i] == stages[..i];
    if i < |stages| - 1 {
      ItemSpan(stages[..|stages| - 1], i);
      assert stages[..|stages| - 1][..i + 1] == stages[..i + 1];
    } else {
      assert stages[..i + 1] == stages;
    }
  }

  /** What the server does with the messages of item `i`. */
  function ItemFates(stages: seq<Stage>, fates: seq<Fate>, i: nat): (r: seq<Fate>)
    requires |fates| == |ItemsFront(stages)| && i < |stages|
    ensures |r| == |ItemFront(stages[i])| > 0
  {
    ItemSpan(stages, i);
    fates[|ItemsFront(stages[..i])|..|ItemsFront(stages[..i + 1])|]
  }

  /** Why item `i` fails, if the server gets to it: its first refused message. */
  function ItemError(names: set<Name>, stages: seq<Stage>, fates: seq<Fate>, i: nat): Option<Error>
    requires |fates| == |ItemsFront(stages)| && i < |stages|
  {
    FirstError(NamesAfter(names, ItemsFront(stages[..i])), ItemFront(stages[i]), ItemFates(stages, fates, i))
  }

  /** The command tag the server has for item `i`. */
  function ItemTag(stages: seq<Stage>, fates: seq<Fate>, i: nat): Option<string>
    requires |fates| == |ItemsFront(stages)| && i < |stages|
  {
    var own := ItemFates(stages, fates, i);
    own[|own| - 1].tag
  }

  /** The statements held behind an item that went well. */
  function StmtsNext(stmts: map<Name, Sql>, stage: Stage): map<Name, Sql>
  {
    if stage.hasParse then stmts[stage.name := stage.sql] else stmts
  }

  function StmtsAfter(stmts: map<Name, Sql>, stages: seq<Stage>): map<Name, Sql>
  {
    if stages == [] then stmts else StmtsNext(StmtsAfter(stmts, stages[..|stages| - 1]), stages[|stages| - 1])
  }

  function TextOf(stmts: map<Name, Sql>, name: Name): Sql { if name in stmts then stmts[name] else "" }

  /** The SQL text each item executes: what its statement name stands for behind the items before it. */
  function ItemTexts(stmts: map<Name, Sql>, stages: seq<Stage>): (r: seq<Sql>)
    ensures |r| == |stages|
  {
    if stages == [] then []
    else ItemTexts(stmts, stages[..|stages| - 1]) + [TextOf(StmtsAfter(stmts, stages), stages[|stages| - 1].name)]
  }

  /** Nothing that was held is lost or changed. */
  predicate Keeps(m: map<Name, Sql>, m': map<Name, Sql>) { forall n :: n in m ==> n in m' && m'[n] == m[n] }

  /** A block reports this error, or else this command tag. */
  predicate BlockFits(b: Block, err: Option<Error>, tag: Option<string>)
  {
    match err
    case None => b.Good? && b.tag == tag
    case Some(e) => b.Bad? && b.err == e
  }

  lemma NoSync(stage: Stage)
    ensures |ItemFront(stage)| >= 2 && NoSyncIn(ItemFront(stage))
  {
  }

  /** The server's answer to one item, unless it is skipping. */
  lemma ServeItem(srv: Server, stage: Stage, fates: seq<Fate>) returns (b: Block)
    requires |fates| == |ItemFront(stage)| && !srv.skipping
    ensures var (srv', replies) := ServeAll(srv, ItemFront(stage), fates);
      && replies == BlockReplies(b) && AllQuiet(b.quiet) && Keeps(srv.stmts, srv'.stmts)
      && BlockFits(b, FirstError(srv.stmts.Keys, ItemFront(stage), fates), fates[|fates| - 1].tag)
      && (srv'.skipping <==> b.Bad?)
      && (b.Good? ==> srv'.stmts == StmtsNext(srv.stmts, stage) && stage.name in srv'.stmts
                      && srv'.stmts.Keys == NamesAfter(srv.stmts.Keys, ItemFront(stage)))
      && srv'.ran == srv.ran + (if b.Good? then [TextOf(srv'.stmts, stage.name)] else [])
  {
    hide FirstError, NamesAfter, BindsFirst;
    var front := ItemFront(stage);
    NoSync(stage);
    BindIsFirst(srv.portal.Some?, stage);
    FirstErrorServed(srv, front, fates);
    var (srv', replies) := ServeAll(srv, front, fates);
    var bind: seq<Front> := [Bind(stage.name), Execute];
    if stage.hasParse {
      var prep := [Parse(stage.name, stage.sql), Describe(stage.name)];
      assert front == prep + bind;
      ServeConcat(srv, prep, bind, fates);
      var (srv1, r1) := ServeAll(srv, prep, fates[..2]);
      var prepared := ServePrepare(srv, stage, fates[..2]);
      if srv1.skipping {
        SkipAll(srv1, bind, fates[2..]);
        assert r1 + [] == r1;
        return prepared;
      }
      var b1 := ServeBind(srv1, stage, fates[2..]);
      b := if b1.Good? then Good(r1 + b1.quiet, b1.tag) else Bad(r1 + b1.quiet, b1.err);
      assert r1 + (b1.quiet + [End(b1)]) == (r1 + b1.quiet) + [End(b1)];
    } else {
      assert front == bind;
      b := ServeBind(srv, stage, fates);
    }
  }

  lemma BindIsFirst(bound: bool, stage: Stage)
    ensures BindsFirst(bound, ItemFront(stage))
  {
    var front := ItemFront(stage);
    var bind: seq<Front> := [Bind(stage.name), Execute];
    assert bind[1..] == [Execute] && [Execute][1..] == [];
    assert BindsFirst(true, [Execute]);
    assert forall b :: BindsFirst(b, bind);
    if stage.hasParse {
      assert front[1..] == [Describe(stage.name)] + bind && front[1..][1..] == bind;
      assert BindsFirst(bound, front[1..]);
    } else {
      assert front == bind;
    }
  }

  lemma ServeTwo(srv: Server, a: Front, b: Front, fates: seq<Fate>)
    requires |fates| == 2
    ensures var (srv1, r1) := Serve(srv, a, fates[0]);
            var (srv2, r2) := Serve(srv1, b, fates[1]);
            ServeAll(srv, [a, b], fates) == (srv2, r1 + r2)
  {
    var (srv1, r1) := Serve(srv, a, fates[0]);
    var (srv2, r2) := Serve(srv1, b, fates[1]);
    assert [a, b][1..] == [b] && [b][1..] == [] && fates[1..][0] == fates[1] && fates[1..][1..] == [];
    assert ServeAll(srv2, [], []) == (srv2, []);
    assert ServeAll(srv1, [b], fates[1..]) == (srv2, r2 + []);
    assert r2 + [] == r2;
  }

  lemma ServePrepare(srv: Server, stage: Stage, fates: seq<Fate>) returns (b: Block)
    requires |fates| == 2 && !srv.skipping
    ensures var (srv', replies) := ServeAll(srv, [Parse(stage.name, stage.sql), Describe(stage.name)], fates);
      && Keeps(srv.stmts, srv'.stmts) && srv'.ran == srv.ran
      && (srv'.skipping ==> b.Bad? && replies == BlockReplies(b) && AllQuiet(b.quiet))
      && (!srv'.skipping ==> AllQuiet(replies) && srv'.stmts == srv.stmts[stage.name := stage.sql])
  {
    ServeTwo(srv, Parse(stage.name, stage.sql), Describe(stage.name), fates);
    var (srv1, r1) := Serve(srv, Parse(stage.name, stage.sql), fates[0]);
    var (srv2, r2) := Serve(srv1, Describe(stage.name), fates[1]);
    if srv1.skipping {
      b := Bad(r1[..|r1| - 1], r1[|r1| - 1].err);
      assert r1 + [] == r1;
    } else if srv2.skipping {
      b := Bad(r1 + r2[..|r2| - 1], r2[|r2| - 1].err);
    } else {
      b := Good([], None);
    }
  }

  lemma BindServed(srv: Server, name: Name, fate: Fate)
    requires !srv.skipping
    ensures var (srv', r) := Serve(srv, Bind(name), fate);
      && srv'.stmts == srv.stmts && srv'.ran == srv.ran && r != [] && AllQuiet(r[..|r| - 1])
      && (if srv'.skipping then r[|r| - 1].ErrorResponse?
          else name in srv.stmts && srv'.portal == Some(srv.stmts[name]) && AllQuiet(r))
  {
  }

  lemma ExecuteServed(srv: Server, fate: Fate)
    requires !srv.skipping && srv.portal.Some?
    ensures var (srv', r) := Serve(srv, Execute, fate);
      && srv'.stmts == srv.stmts && r != [] && AllQuiet(r[..|r| - 1])
      && (if srv'.skipping then r[|r| - 1].ErrorResponse? && srv'.ran == srv.ran
          else r[|r| - 1] == Finish(fate.tag) && srv'.ran == srv.ran + [srv.portal.value])
  {
  }

  lemma ServeBind(srv: Server, stage: Stage, fates: seq<Fate>) returns (b: Block)
    requires |fates| == 2 && !srv.skipping
    ensures var (srv', replies) := ServeAll(srv, [Bind(stage.name), Execute], fates);
      && replies == BlockReplies(b) && AllQuiet(b.quiet) && srv.stmts == srv'.stmts
      && (srv'.skipping <==> b.Bad?)
      && (b.Good? ==> b.tag == fates[1].tag && stage.name in srv'.stmts)
      && srv'.ran == srv.ran + (if b.Good? then [TextOf(srv.stmts, stage.name)] else [])
  {
    ServeTwo(srv, Bind(stage.name), Execute, fates);
    var (srv1, r1) := Serve(srv, Bind(stage.name), fates[0]);
    BindServed(srv, stage.name, fates[0]);
    if srv1.skipping {
      assert Serve(srv1, Execute, fates[1]) == (srv1, []);
      hide Serve;
      b := Bad(r1[..|r1| - 1], r1[|r1| - 1].err);
      assert r1 + [] == r1;
    } else {
      hide Serve;
      ExecuteServed(srv1, fates[1]);
      var (srv2, r2) := Serve(srv1, Execute, fates[1]);
      var quiet := r1 + r2[..|r2| - 1];
      b := if srv2.skipping then Bad(quiet, r2[|r2| - 1].err) else Good(quiet, fates[1].tag);
      assert r1 + r2 == quiet + [r2[|r2| - 1]];
    }
  }

  /**
   The blocks the server's decisions call for: each item that is reached gets its own command tag
   or its own first error, and nothing comes behind the first error.
  */
  ghost predicate BlocksMatch(names: set<Name>, stages: seq<Stage>, fates: seq<Fate>, blocks: seq<Block>)
    requires |fates| == |ItemsFront(stages)|
  {
    && AnswersTo(|stages|, blocks)
    && forall i :: 0 <= i < |blocks| ==>
         BlockFits(blocks[i], ItemError(names, stages, fates, i), ItemTag(stages, fates, i))
  }

  /** The statements of the items that went well are held, those parsed for them with the item's text. */
  predicate NamesServed(stmts: map<Name, Sql>, stages: seq<Stage>, blocks: seq<Block>)
  {
    && |blocks| <= |stages|
    && forall i :: 0 <= i < |blocks| && blocks[i].Good? ==>
         stages[i].name in stmts && (stages[i].hasParse ==> stmts[stages[i].name] == stages[i].sql)
  }

  /** How many items went well. */
  function GoodCount(blocks: seq<Block>): (n: nat)
    ensures n <= |blocks|
  {
    if blocks != [] && blocks[|blocks| - 1].Bad? then |blocks| - 1 else |blocks|
  }

  /** Exactly the items that went well have been executed, each with its own text. */
  ghost predicate Executed(srv: Server, srv': Server, stages: seq<Stage>, blocks: seq<Block>)
  {
    && |blocks| <= |stages|
    && srv'.ran == srv.ran + ItemTexts(srv.stmts, stages)[..GoodCount(blocks)]
    && (!srv'.skipping ==> srv'.stmts == StmtsAfter(srv.stmts, stages))
  }

  lemma ItemFatesInit(stages: seq<Stage>, fates: seq<Fate>, i: nat)
    requires |fates| == |ItemsFront(stages)| && i + 1 < |stages|
    ensures var n := |stages| - 1;
            var k := |ItemsFront(stages[..n])|;
            && k <= |fates| && stages[..n][..i] == stages[..i]
            && ItemFates(stages[..n], fates[..k], i) == ItemFates(stages, fates, i)
  {
    hide ItemFront, ItemsFront;
    var n := |stages| - 1;
    ItemSpan(stages[..n], i);
    ItemSpan(stages, i);
    ItemSpan(stages, n - 1);
    assert stages[..n][..i + 1] == stages[..i + 1] && stages[..n][..i] == stages[..i];
    ItemSpan(stages, n);
  }

  lemma ItemOfInit(names: set<Name>, stages: seq<Stage>, fates: seq<Fate>, i: nat)
    requires |fates| == |ItemsFront(stages)| && i + 1 < |stages|
    requires var k := |ItemsFront(stages[..|stages| - 1])|; k <= |fates|
    ensures var n := |stages| - 1;
            var k := |ItemsFront(stages[..n])|;
            && ItemError(names, stages[..n], fates[..k], i) == ItemError(names, stages, fates, i)
            && ItemTag(stages[..n], fates[..k], i) == ItemTag(stages, fates, i)
  {
    hide FirstError, NamesAfter, ItemFront, ItemsFront, ItemFates;
    ItemFatesInit(stages, fates, i);
  }

  /** The last item's messages are the last ones. */
  lemma LastItem(names: set<Name>, stages: seq<Stage>, fates: seq<Fate>)
    requires |fates| == |ItemsFront(stages)| && stages != []
    ensures var n := |stages| - 1;
            var k := |ItemsFront(stages[..n])|;
      && |fates| - k == |ItemFront(stages[n])| > 0
      && ItemError(names, stages, fates, n)
         == FirstError(NamesAfter(names, ItemsFront(stages[..n])), ItemFront(stages[n]), fates[k..])
      && ItemTag(stages, fates, n) == fates[|fates| - 1].tag
  {
    hide ItemFront, ItemsFront, FirstError, NamesAfter;
    var n := |stages| - 1;
    NoSync(stages[n]);
    ItemSpan(stages, n);
    assert stages[..|stages|] == stages;
    var k := |ItemsFront(stages[..n])|;
    assert fates[k..|fates|] == fates[k..];
  }

  ghost predicate ItemsServed(srv: Server, stages: seq<Stage>, fates: seq<Fate>, blocks: seq<Block>)
    requires |fates| == |ItemsFront(stages)|
  {
    var (srv', replies) := ServeAll(srv, ItemsFront(stages), fates);
    && replies == Flat(blocks) && Keeps(srv.stmts, srv'.stmts)
    && (srv'.skipping <==> blocks != [] && blocks[|blocks| - 1].Bad?)
    && (!srv'.skipping ==> srv'.stmts.Keys == NamesAfter(srv.stmts.Keys, ItemsFront(stages)))
    && NamesServed(srv'.stmts, stages, blocks) && BlocksMatch(srv.stmts.Keys, stages, fates, blocks)
    && Executed(srv, srv', stages, blocks)
  }

  lemma BlocksOfInit(names: set<Name>, stages: seq<Stage>, fates: seq<Fate>, blocks: seq<Block>)
    requires |fates| == |ItemsFront(stages)| && stages != []
    requires BlocksMatch(names, stages[..|stages| - 1], fates[..|ItemsFront(stages[..|stages| - 1])|], blocks)
    ensures |blocks| < |stages|
    ensures forall i :: 0 <= i < |blocks| ==>
              BlockFits(blocks[i], ItemError(names, stages, fates, i), ItemTag(stages, fates, i))
  {
    hide ItemsFront, ItemError, ItemTag, BlockFits, ItemFront, AllQuiet;
    var n := |stages| - 1;
    ItemSpan(stages, n);
    var k := |ItemsFront(stages[..n])|;
    forall i | 0 <= i < |blocks|
      ensures BlockFits(blocks[i], ItemError(names, stages, fates, i), ItemTag(stages, fates, i))
    {
      assert BlockFits(blocks[i], ItemError(names, stages[..n], fates[..k], i), ItemTag(stages[..n], fates[..k], i));
      ItemOfInit(names, stages, fates, i);
    }
  }

  lemma ServeItemsSkipped(srv: Server, stages: seq<Stage>, fates: seq<Fate>, blocks: seq<Block>)
    requires |fates| == |ItemsFront(stages)| && stages != []
    requires ItemsServed(srv, stages[..|stages| - 1], fates[..|ItemsFront(stages[..|stages| - 1])|], blocks)
    requires ServeAll(srv, ItemsFront(stages[..|stages| - 1]), fates[..|ItemsFront(stages[..|stages| - 1])|]).0.skipping
    ensures ItemsServed(srv, stages, fates, blocks)
  {
    hide ItemError, ItemTag, BlockFits, Flat, ServeAll, ItemFront, NamesAfter;
    var n := |stages| - 1;
    var k := |ItemsFront(stages[..n])|;
    ServeConcat(srv, ItemsFront(stages[..n]), ItemFront(stages[n]), fates);
    var (srv1, r1) := ServeAll(srv, ItemsFront(stages[..n]), fates[..k]);
    NoSync(stages[n]);
    SkipAll(srv1, ItemFront(stages[n]), fates[k..]);
    assert r1 + [] == r1;
    BlocksOfInit(srv.stmts.Keys, stages, fates, blocks);
    TextsOfInit(srv.stmts, stages);
  }

  lemma TextsOfInit(stmts: map<Name, Sql>, stages: seq<Stage>)
    requires stages != []
    ensures ItemTexts(stmts, stages)[..|stages| - 1] == ItemTexts(stmts, stages[..|stages| - 1])
  {
  }

  lemma NamesAfterItem(names: set<Name>, stages: seq<Stage>)
    requires stages != []
    ensures var n := |stages| - 1;
            NamesAfter(names, ItemsFront(stages)) == NamesAfter(NamesAfter(names, ItemsFront(stages[..n])), ItemFront(stages[n]))
  {
    hide ItemFront, NamesAfter, WellNamed;
    WellNamedConcat(names, ItemsFront(stages[..|stages| - 1]), ItemFront(stages[|stages| - 1]));
  }

  /** One more block, for the last item. */
  lemma BlocksNext(names: set<Name>, stages: seq<Stage>, fates: seq<Fate>, blocks: seq<Block>, b: Block)
    requires |fates| == |ItemsFront(stages)| && stages != [] && |blocks| == |stages| - 1
    requires forall i :: 0 <= i < |blocks| ==>
               BlockFits(blocks[i], ItemError(names, stages, fates, i), ItemTag(stages, fates, i))
    requires AnswersTo(|stages| - 1, blocks) && AllQuiet(b.quiet) && (blocks != [] ==> blocks[|blocks| - 1].Good?)
    requires BlockFits(b, ItemError(names, stages, fates, |blocks|), ItemTag(stages, fates, |blocks|))
    ensures BlocksMatch(names, stages, fates, blocks + [b])
  {
    hide BlockFits, ItemError, ItemTag, ItemsFront, AllQuiet;
    forall i | 0 <= i < |blocks + [b]|
      ensures BlockFits((blocks + [b])[i], ItemError(names, stages, fates, i), ItemTag(stages, fates, i))
    {
      if i < |blocks| {
        assert (blocks + [b])[i] == blocks[i];
      }
    }
  }

  lemma ServeItemsNext(srv: Server, stages: seq<Stage>, fates: seq<Fate>, blocks: seq<Block>) returns (all: seq<Block>)
    requires |fates| == |ItemsFront(stages)| && stages != [] && !srv.skipping
    requires ItemsServed(srv, stages[..|stages| - 1], fates[..|ItemsFront(stages[..|stages| - 1])|], blocks)
    requires !ServeAll(srv, ItemsFront(stages[..|stages| - 1]), fates[..|ItemsFront(stages[..|stages| - 1])|]).0.skipping
    ensures ItemsServed(srv, stages, fates, all)
  {
    hide ItemError, ItemTag, BlockFits, ServeAll, ItemFront, BlockReplies, NamesAfter, FirstError, BlocksMatch, AllQuiet,
         Executed, NamesServed, Keeps, Flat;
    var n := |stages| - 1;
    var k := |ItemsFront(stages[..n])|;
    LastItem(srv.stmts.Keys, stages, fates);
    ServeConcat(srv, ItemsFront(stages[..n]), ItemFront(stages[n]), fates);
    var (srv1, r1) := ServeAll(srv, ItemsFront(stages[..n]), fates[..k]);
    assert srv1.stmts == StmtsAfter(srv.stmts, stages[..n]) by { ExecutedMeans(srv, srv1, stages[..n], blocks); }
    var b := ServeItem(srv1, stages[n], fates[k..]);
    var srv2 := ServeAll(srv1, ItemFront(stages[n]), fates[k..]).0;
    NamesAfterItem(srv.stmts.Keys, stages);
    BlocksInStep(srv.stmts.Keys, stages[..n], fates[..k], blocks);
    BlocksOfInit(srv.stmts.Keys, stages, fates, blocks);
    BlocksNext(srv.stmts.Keys, stages, fates, blocks, b);
    all := blocks + [b];
    FlatMore(blocks, b);
    ServedMore(srv, srv1, srv2, stages, blocks, b);
  }

  lemma ExecutedMeans(srv: Server, srv': Server, stages: seq<Stage>, blocks: seq<Block>)
    requires Executed(srv, srv', stages, blocks) && !srv'.skipping
    ensures srv'.stmts == StmtsAfter(srv.stmts, stages)
  {
  }

  /** What one more item adds to the statements held and executed. */
  lemma ServedMore(srv: Server, srv1: Server, srv2: Server, stages: seq<Stage>, blocks: seq<Block>, b: Block)
    requires stages != [] && |blocks| == |stages| - 1 && (blocks != [] ==> blocks[|blocks| - 1].Good?)
    requires Executed(srv, srv1, stages[..|stages| - 1], blocks) && !srv1.skipping
    requires Keeps(srv.stmts, srv1.stmts) && NamesServed(srv1.stmts, stages[..|stages| - 1], blocks)
    requires Keeps(srv1.stmts, srv2.stmts) && (srv2.skipping <==> b.Bad?)
    requires b.Good? ==> srv2.stmts == StmtsNext(srv1.stmts, stages[|stages| - 1]) && stages[|stages| - 1].name in srv2.stmts
    requires srv2.ran == srv1.ran + (if b.Good? then [TextOf(srv2.stmts, stages[|stages| - 1].name)] else [])
    ensures Executed(srv, srv2, stages, blocks + [b]) && Keeps(srv.stmts, srv2.stmts)
    ensures NamesServed(srv2.stmts, stages, blocks + [b])
  {
    hide StmtsAfter, ItemTexts, TextOf;
    var n := |stages| - 1;
    TextsOfLast(srv.stmts, stages);
    TextsOfInit(srv.stmts, stages);
    var texts, front := ItemTexts(srv.stmts, stages), ItemTexts(srv.stmts, stages[..n]);
    assert front[..n] == front && texts[..n + 1] == texts;
    assert srv1.ran == srv.ran + front;
    forall i | 0 <= i < |blocks + [b]| && (blocks + [b])[i].Good?
      ensures stages[i].name in srv2.stmts && (stages[i].hasParse ==> srv2.stmts[stages[i].name] == stages[i].sql)
    {
      if i < n {
        assert blocks[i].Good? && stages[..n][i] == stages[i];
      }
    }
  }

  lemma TextsOfLast(stmts: map<Name, Sql>, stages: seq<Stage>)
    requires stages != []
    ensures var n := |stages| - 1;
      && StmtsAfter(stmts, stages) == StmtsNext(StmtsAfter(stmts, stages[..n]), stages[n])
      && ItemTexts(stmts, stages) == ItemTexts(stmts, stages[..n]) + [TextOf(StmtsAfter(stmts, stages), stages[n].name)]
  {
  }

  lemma FlatMore(blocks: seq<Block>, b: Block)
    ensures Flat(blocks + [b]) == Flat(blocks) + BlockReplies(b)
  {
    assert (blocks + [b])[..|blocks|] == blocks;
  }

  lemma BlocksInStep(names: set<Name>, stages: seq<Stage>, fates: seq<Fate>, blocks: seq<Block>)
    requires |fates| == |ItemsFront(stages)| && BlocksMatch(names, stages, fates, blocks)
    ensures AnswersTo(|stages|, blocks)
    ensures blocks == [] || blocks[|blocks| - 1].Good? ==> |blocks| == |stages|
  {
  }

  lemma {:induction false} ServeItems(srv: Server, stages: seq<Stage>, fates: seq<Fate>) returns (blocks: seq<Block>)
    requires |fates| == |ItemsFront(stages)| && !srv.skipping
    ensures ItemsServed(srv, stages, fates, blocks)
    decreases |stages|
  {
    if stages == [] {
      blocks := [];
    } else {
      var n := |stages| - 1;
      var k := |ItemsFront(stages[..n])|;
      blocks := ServeItems(srv, stages[..n], fates[..k]);
      if ServeAll(srv, ItemsFront(stages[..n]), fates[..k]).0.skipping {
        ServeItemsSkipped(srv, stages, fates, blocks);
      } else {
        blocks := ServeItemsNext(srv, stages, fates, blocks);
      }
    }
  }

  lemma {:induction false} ServeCloses(srv: Server, pending: seq<Name>, fates: seq<Fate>)
    requires |fates| == |Closes(pending)| && !srv.skipping
    ensures var (srv', replies) := ServeAll(srv, Closes(pending), fates);
      && !srv'.skipping && srv'.stmts == srv.stmts - (set n | n in pending) && srv'.ran == srv.ran
      && IsPreamble(replies) && (pending == [] ==> replies == [])
      && (pending != [] ==> forall more :: OutOfStep(replies + more))
    decreases |pending|
  {
    if pending != [] {
      var n := |pending| - 1;
      var k := |Closes(pending[..n])|;
      ServeConcat(srv, Closes(pending[..n]), [Front.Close(pending[n])], fates);
      ServeCloses(srv, pending[..n], fates[..k]);
      var (srv1, r1) := ServeAll(srv, Closes(pending[..n]), fates[..k]);
      ServeOneClose(srv1, pending[n], fates[k..]);
      var (srv2, r2) := ServeAll(srv1, [Front.Close(pending[n])], fates[k..]);
      assert pending == pending[..n] + [pending[n]];
      forall more ensures OutOfStep(r1 + r2 + more) {
        assert r1 + r2 + more == r1 + (r2 + more);
        if n == 0 {
          assert r1 + (r2 + more) == r2 + more;
        }
      }
    }
  }

  lemma ServeOneClose(srv: Server, name: Name, fates: seq<Fate>)
    requires |fates| == 1 && !srv.skipping
    ensures ServeAll(srv, [Front.Close(name)], fates)
         == (srv.(stmts := srv.stmts - {name}), Noise(fates[0].noise) + [CloseComplete])
    ensures forall more :: OutOfStep((Noise(fates[0].noise) + [CloseComplete]) + more)
  {
    var r := Noise(fates[0].noise) + [CloseComplete];
    assert [Front.Close(name)][1..] == [] && fates[1..] == [];
    assert ServeAll(srv.(stmts := srv.stmts - {name}), [], []) == (srv.(stmts := srv.stmts - {name}), []);
    assert r + [] == r;
    forall more ensures OutOfStep(r + more) {
      NoiseThenClose(fates[0].noise, more);
    }
  }

  lemma {:induction false} NoiseThenClose(texts: seq<string>, more: seq<Reply>)
    ensures OutOfStep((Noise(texts) + [CloseComplete]) + more)
    decreases |texts|
  {
    if texts != [] {
      NoiseThenClose(texts[1..], more);
      var s := (Noise(texts) + [CloseComplete]) + more;
      assert s[1..] == (Noise(texts[1..]) + [CloseComplete]) + more;
    }
  }

  /**
   The server's answer to a whole batch, whatever it does with each message: answers to the
   Close messages, then one block per item with that item's own command tag, cut short after
   the first error, then ReadyForQuery.
  */
  lemma ServeBatch(srv: Server, pending: seq<Name>, stages: seq<Stage>, fates: seq<Fate>)
    returns (preamble: seq<Reply>, blocks: seq<Block>, tail: seq<Reply>)
    requires |fates| == |BatchFront(pending, stages)| && !srv.skipping
    ensures var (srv', replies) := ServeAll(srv, BatchFront(pending, stages), fates);
      var k, last := |Closes(pending)|, fates[|fates| - 1];
      && replies == preamble + Responses(blocks, tail)
      && !srv'.skipping && Keeps(srv.stmts - (set n | n in pending), srv'.stmts)
      && IsPreamble(preamble) && TailFits(blocks, tail)
      && (blocks == [] || blocks[|blocks| - 1].Good? ==> (HasError(tail) <==> last.error.Some?))
      && (pending == [] ==> preamble == [])
      && (pending != [] ==> forall more :: OutOfStep(preamble + more))
      && NamesServed(srv'.stmts, stages, blocks)
      && BlocksMatch(srv.stmts.Keys - (set n | n in pending), stages, fates[k..][..|ItemsFront(stages)|], blocks)
      && |blocks| <= |stages|
      && srv'.ran == srv.ran + ItemTexts(srv.stmts - (set n | n in pending), stages)[..GoodCount(blocks)]
  {
    hide BlocksMatch, NamesServed;
    var closes, items := Closes(pending), ItemsFront(stages);
    var k, m := |closes|, |items|;
    assert BatchFront(pending, stages) == closes + (items + [Sync]);
    ServeConcat(srv, closes, items + [Sync], fates);
    ServeCloses(srv, pending, fates[..k]);
    var (srv1, r1) := ServeAll(srv, closes, fates[..k]);
    preamble := r1;
    ServeConcat(srv1, items, [Sync], fates[k..]);
    blocks := ServeItems(srv1, stages, fates[k..][..m]);
    var (srv2, r2) := ServeAll(srv1, items, fates[k..][..m]);
    tail := SyncReplies(srv2, fates[k..][m]);
    ServeSync(srv2, fates[k..][m..]);
    ResponsesAreFlat(blocks, tail);
  }

  /** What the server says to Sync before it is ready again. */
  function SyncReplies(srv: Server, fate: Fate): (r: seq<Reply>)
    ensures forall i :: 0 <= i < |r| ==> r[i].Asynchronous? || r[i].ErrorResponse?
    ensures srv.skipping ==> AllAsync(r)
    ensures !srv.skipping ==> (HasError(r) <==> fate.error.Some?)
  {
    var r := Noise(fate.noise)
             + (if !srv.skipping && fate.error.Some? then [ErrorResponse(Failure(fate.error.value))] else []);
    assert !srv.skipping && fate.error.Some? ==> r[|r| - 1].ErrorResponse?;
    r
  }

  lemma ServeSync(srv: Server, fates: seq<Fate>)
    requires |fates| == 1
    ensures ServeAll(srv, [Sync], fates) == (srv.(skipping := false, portal := None), SyncReplies(srv, fates[0]) + [ReadyForQuery])
  {
    var r := SyncReplies(srv, fates[0]) + [ReadyForQuery];
    assert [Sync][1..] == [] && fates[1..] == [];
    assert ServeAll(srv.(skipping := false, portal := None), [], []) == (srv.(skipping := false, portal := None), []);
    assert r + [] == r;
  }

  // ---- A whole batch, end to end ------------------------------------------------------------------

  function Rest(victims: seq<Option<Sql>>): seq<Option<Sql>> { if victims == [] then [] else victims[1..] }

  function FirstVictim(victims: seq<Option<Sql>>): Option<Sql> { if victims == [] then None else victims[0] }

  function Committed(v: View, stage: Stage, victim: Option<Sql>): View
  {
    if stage.hasParse then PutView(v, stage.sql, stage.name, victim) else v
  }

  /**
   `k` calls of Exec: the cache, what is left to read, and whether the batch still runs. Each
   item answered without error keeps its newly parsed statement.
  */
  function Progress(v: View, stages: seq<Stage>, input: seq<Reply>, k: nat, victims: seq<Option<Sql>>): (View,
                    seq<Reply>, bool)
    decreases |stages|
  {
    if k == 0 || stages == [] then (v, input, true)
    else
      var r := ReadItem(input, None);
      if !r.result.Ok? then (v, r.rest, false)
      else Progress(Committed(v, stages[0], FirstVictim(victims)), stages[1..], r.rest, k - 1, Rest(victims))
  }

  /** The cache after `k` calls of Exec. */
  function Commits(v: View, stages: seq<Stage>, input: seq<Reply>, k: nat, victims: seq<Option<Sql>>): View
  {
    Progress(v, stages, input, k, victims).0
  }

  /** What one call of Exec makes of that. */
  function NextExec(p: (View, seq<Reply>, bool), stage: Stage, victim: Option<Sql>): (View, seq<Reply>, bool)
  {
    var r := ReadItem(p.1, None);
    if !p.2 then p else if !r.result.Ok? then (p.0, r.rest, false) else (Committed(p.0, stage, victim), r.rest, true)
  }

  /** One more call. */
  lemma {:induction false} ProgressMore(v: View, stages: seq<Stage>, input: seq<Reply>, k: nat,
                                        victims: seq<Option<Sql>>, victim: Option<Sql>)
    requires k < |stages| && |victims| == k
    ensures Progress(v, stages, input, k + 1, victims + [victim])
         == NextExec(Progress(v, stages, input, k, victims), stages[k], victim)
    decreases k
  {
    hide ReadItem, Committed;
    if k > 0 {
      var r := ReadItem(input, None);
      if r.result.Ok? {
        assert (victims + [victim])[1..] == victims[1..] + [victim];
        ProgressMore(Committed(v, stages[0], victims[0]), stages[1..], r.rest, k - 1, victims[1..], victim);
      }
    }
  }

  /** What a caller should get for item `i`, told from the server's decisions alone. */
  ghost function ItemResult(names: set<Name>, stages: seq<Stage>, fates: seq<Fate>, i: nat): Result
    requires |fates| == |ItemsFront(stages)| && i < |stages|
  {
    if exists j :: 0 <= j < i && ItemError(names, stages, fates, j).Some? then BatchAborted
    else
      match ItemError(names, stages, fates, i)
      case None => Ok(ItemTag(stages, fates, i))
      case Some(e) => ServerError(e)
  }

  lemma ResultOfBlocks(names: set<Name>, stages: seq<Stage>, fates: seq<Fate>, blocks: seq<Block>, i: nat)
    requires |fates| == |ItemsFront(stages)| && i < |stages| && BlocksMatch(names, stages, fates, blocks)
    ensures Expected(blocks, i) == ItemResult(names, stages, fates, i)
  {
    hide ItemError, ItemTag, ItemsFront;
    if i >= |blocks| {
      var j := |blocks| - 1;
      assert BlockFits(blocks[j], ItemError(names, stages, fates, j), ItemTag(stages, fates, j));
    } else {
      forall j | 0 <= j < i ensures ItemError(names, stages, fates, j).None? {
        assert BlockFits(blocks[j], ItemError(names, stages, fates, j), ItemTag(stages, fates, j));
      }
      assert BlockFits(blocks[i], ItemError(names, stages, fates, i), ItemTag(stages, fates, i));
    }
  }

  /** When every item went well, only the tail can hold an error. */
  lemma {:induction false} ErrorInTail(preamble: seq<Reply>, blocks: seq<Block>, tail: seq<Reply>)
    requires IsPreamble(preamble) && forall i :: 0 <= i < |blocks| ==> AllQuiet(blocks[i].quiet) && blocks[i].Good?
    ensures HasError(preamble + Responses(blocks, tail)) <==> HasError(tail)
    decreases |blocks|
  {
    if blocks == [] {
      ErrorPast(preamble, tail + [ReadyForQuery]);
      ErrorBefore(tail, [ReadyForQuery]);
    } else {
      var none: seq<Reply> := [];
      ErrorInTail(none, blocks[1..], tail);
      var rest := Responses(blocks[1..], tail);
      assert none + rest == rest;
      ErrorPast(BlockReplies(blocks[0]), rest);
      ErrorPast(preamble, BlockReplies(blocks[0]) + rest);
    }
  }

  lemma ErrorPast(a: seq<Reply>, b: seq<Reply>)
    requires forall i :: 0 <= i < |a| ==> !a[i].ErrorResponse?
    ensures HasError(a + b) <==> HasError(b)
  {
    if HasError(b) {
      var i :| 0 <= i < |b| && b[i].ErrorResponse?;
      assert (a + b)[|a| + i].ErrorResponse?;
    }
  }

  lemma ErrorBefore(a: seq<Reply>, b: seq<Reply>)
    requires forall i :: 0 <= i < |b| ==> !b[i].ErrorResponse?
    ensures HasError(a + b) <==> HasError(a)
  {
    if HasError(a) {
      var i :| 0 <= i < |a| && a[i].ErrorResponse?;
      assert (a + b)[i].ErrorResponse?;
    }
  }

  /** Results of the first `k` calls when the answers are in step: each item its own. */
  ghost predicate InOrder(results: seq<Result>, blocks: seq<Block>)
  {
    forall i :: 0 <= i < |results| ==> results[i] == Expected(blocks, i)
  }

  /** The first call fails on an answer to a Close; the others report the abort. */
  ghost predicate AllFail(results: seq<Result>)
  {
    forall i :: 0 <= i < |results| ==> results[i] == if i == 0 then Unexpected(CloseComplete) else BatchAborted
  }

  /** `k` calls of Exec on a fresh reader. */
  method ExecAll(br: BatchResults, stmts: StmtCache, k: nat)
    returns (results: seq<Result>, ghost victims: seq<Option<Sql>>)
    requires br.Valid() && stmts.Valid() && !br.closed && br.idx == 0 && !br.aborted && k <= br.n
    requires br.InStep() || OutOfStep(br.input)
    modifies br, stmts
    ensures br.Valid() && stmts.Valid() && !br.closed && |results| == k
    ensures old(br.InStep()) ==> InOrder(results, br.blocks)
    ensures OutOfStep(old(br.input)) ==> AllFail(results)
    ensures stmts.Contents() == Commits(old(stmts.Contents()), br.stages, old(br.input), k, victims)
  {
    hide OutOfStep, AnswersTo, Ahead, Expected, Responses, PutView, ReadItem, Progress;
    results, victims := [], [];
    NoProgress(stmts.Contents(), br.stages, br.input, victims);
    while |results| < k
      invariant |results| <= k && br.Valid() && stmts.Valid() && !br.closed && br.idx == |results|
      invariant old(br.InStep()) ==> br.InStep() && InOrder(results, br.blocks)
      invariant OutOfStep(old(br.input)) ==> AllFail(results)
                                             && (if results == [] then OutOfStep(br.input) && !br.aborted else br.aborted)
      invariant |victims| == |results|
      invariant Progress(old(stmts.Contents()), br.stages, old(br.input), |results|, victims)
             == (stmts.Contents(), br.input, !br.aborted)
    {
      var result;
      ghost var victim;
      ghost var i := |results|;
      result, victim := br.Exec(stmts);
      ProgressMore(old(stmts.Contents()), br.stages, old(br.input), i, victims, victim);
      victims := victims + [victim];
      results := results + [result];
    }
  }

  lemma NoProgress(v: View, stages: seq<Stage>, input: seq<Reply>, victims: seq<Option<Sql>>)
    ensures Progress(v, stages, input, 0, victims) == (v, input, true)
  {
  }

  /**
   SendBatch, the server, `k` calls of Exec and Close. The connection is left right behind the
   batch in every case. Every result is its own item's exactly when no Close was pending; with a
   pending Close the first call already fails. An error at Sync, and no other, is missed.
  */
  method RunBatch(stmts: StmtCache, items: seq<Sql>, srv: Server, fates: seq<Fate>, k: nat, after: seq<Reply>)
    returns (results: seq<Result>, left: seq<Reply>, ghost victims: seq<Option<Sql>>)
    requires stmts.Valid() && !srv.skipping && k <= |items|
    requires |fates| == |BatchFront(stmts.closed, PlanBatch(stmts.Contents(), items).stages)|
    modifies stmts
    ensures stmts.Valid() && left == after && |results| == k
    ensures var pending, stages := old(stmts.closed), PlanBatch(old(stmts.Contents()), items).stages;
            var own := fates[|Closes(pending)|..][..|ItemsFront(stages)|];
            var replies := ServeAll(srv, BatchFront(pending, stages), fates).1;
      && |stages| == |items|
      && stmts.Contents() == Commits(PlanBatch(old(stmts.Contents()), items).view, stages, replies + after, k, victims)
      && (pending == [] ==> forall i :: 0 <= i < k ==> results[i] == ItemResult(srv.stmts.Keys, stages, own, i))
      && (pending != [] ==> AllFail(results))
      && (pending == [] && k == |items| && (forall i :: 0 <= i < k ==> results[i].Ok?)
          ==> (HasError(replies) <==> fates[|fates| - 1].error.Some?))
  {
    hide ServeAll, PlanBatch, BatchFront, ItemsFront, BlocksMatch, Responses, AnswersTo, InOrder, AllFail, Ahead,
         Commits, ItemResult, HasError, TailFits, NamesServed;
    ghost var pending := stmts.closed;
    PlanLength(stmts.Contents(), items);
    var front, stages := SendBatch(stmts, items);
    BatchLength(pending, stages);
    var (srv', replies) := ServeAll(srv, front, fates);
    ghost var own := fates[|Closes(pending)|..][..|ItemsFront(stages)|];
    ghost var preamble, blocks, tail := ServeBatch(srv, pending, stages, fates);
    ghost var kept := srv.stmts.Keys - (set n | n in pending);
    BlocksInStep(kept, stages, own, blocks);
    assert replies + after == preamble + (Responses(blocks, tail) + after);
    var br := new BatchResults(stages, preamble, blocks, tail, after, replies + after);
    results, victims := ExecAll(br, stmts, k);
    br.Close();
    left := br.input;
    if pending == [] {
      assert kept == srv.stmts.Keys;
      OwnResults(srv.stmts.Keys, stages, own, blocks, results);
      if k == |items| && forall i :: 0 <= i < k ==> results[i].Ok? {
        OnlySyncFailed(blocks, results, |stages|);
        ErrorInTail(preamble, blocks, tail);
      }
    }
  }

  lemma OwnResults(names: set<Name>, stages: seq<Stage>, fates: seq<Fate>, blocks: seq<Block>, results: seq<Result>)
    requires |fates| == |ItemsFront(stages)| && BlocksMatch(names, stages, fates, blocks)
    requires |results| <= |stages| && InOrder(results, blocks)
    ensures forall i :: 0 <= i < |results| ==> results[i] == ItemResult(names, stages, fates, i)
  {
    hide BlocksMatch, ItemResult, Expected;
    forall i | 0 <= i < |results| ensures results[i] == ItemResult(names, stages, fates, i) {
      ResultOfBlocks(names, stages, fates, blocks, i);
    }
  }

  lemma OnlySyncFailed(blocks: seq<Block>, results: seq<Result>, n: nat)
    requires AnswersTo(n, blocks) && |results| == n && InOrder(results, blocks)
    requires forall i :: 0 <= i < n ==> results[i].Ok?
    ensures |blocks| == n && forall i :: 0 <= i < n ==> AllQuiet(blocks[i].quiet) && blocks[i].Good?
  {
    hide AllQuiet;
    forall i | 0 <= i < |blocks| ensures blocks[i].Good? {
      assert results[i].Ok? && results[i] == Expected(blocks, i);
    }
  }

  lemma PlanLength(v: View, items: seq<Sql>)
    ensures |PlanBatch(v, items).stages| == |items|
  {
    ParsedOnce(v, items);
  }

  lemma BatchLength(pending: seq<Name>, stages: seq<Stage>)
    ensures |BatchFront(pending, stages)| == |Closes(pending)| + |ItemsFront(stages)| + 1
  {
  }
}
