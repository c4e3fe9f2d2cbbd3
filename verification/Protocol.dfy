/**
 The extended-query protocol as far as pipelining needs it (PostgreSQL 16 documentation,
 sections 55.2.3 "Extended Query" and 55.2.4 "Pipelining"): a server that keeps prepared
 statements, answers messages in order, and after an error skips everything up to Sync.
*/
module Protocol {
  import opened Bytes

  type Sql = string
  type Name = string

  datatype Front =
    | Close(name: Name)
    | Parse(name: Name, sql: Sql)
    | Describe(name: Name)
    | Bind(name: Name)
    | Execute
    | Sync

  datatype Error = Failure(code: string) | UnknownStatement(name: Name) | DuplicateStatement(name: Name)

  /** What the server sends. Notices and parameter changes may come at any time. */
  datatype Reply =
    | CloseComplete
    | ParseComplete
    | ParameterDescription
    | RowDescription
    | NoData
    | BindComplete
    | DataRow
    | CommandComplete(tag: string)
    | EmptyQueryResponse
    | ErrorResponse(err: Error)
    | Asynchronous(text: string)
    | ReadyForQuery

  /**
   The server: its prepared statements with their texts, whether it is skipping to the next Sync,
   what the unnamed portal is bound to, and the texts of all statements it has executed.
  */
  datatype Server = Server(stmts: map<Name, Sql>, skipping: bool, portal: Option<Sql>, ran: seq<Sql>)

  /**
   What the server happens to do with one message: the asynchronous messages it sends first,
   whether it fails, and for Execute the rows and the command tag (None for an empty query).
  */
  datatype Fate = Fate(noise: seq<string>, rows: nat, error: Option<string>, returnsRows: bool, tag: Option<string>)

  function Noise(texts: seq<string>): (r: seq<Reply>)
    ensures |r| == |texts| && forall i :: 0 <= i < |r| ==> r[i].Asynchronous?
  {
    if texts == [] then [] else [Asynchronous(texts[0])] + Noise(texts[1..])
  }

  function Rows(n: nat): (r: seq<Reply>)
    ensures |r| == n && forall i :: 0 <= i < n ==> r[i] == DataRow
  {
    if n == 0 then [] else [DataRow] + Rows(n - 1)
  }

  const NO_PORTAL := "34000"

  function Finish(tag: Option<string>): Reply
  {
    match tag
    case None => EmptyQueryResponse
    case Some(t) => CommandComplete(t)
  }

  /**
   The server's reaction to one message. Ending the transaction at Sync may fail too, unless it
   has failed already; the server is ready again in any case.
  */
  function Serve(srv: Server, m: Front, fate: Fate): (Server, seq<Reply>)
  {
    var broken := srv.(skipping := true);
    if m.Sync? then
      (srv.(skipping := false, portal := None),
       Noise(fate.noise) + (if !srv.skipping && fate.error.Some? then [ErrorResponse(Failure(fate.error.value))] else [])
       + [ReadyForQuery])
    else if srv.skipping then (srv, [])
    else if fate.error.Some? && !m.Close? then
      (broken, Noise(fate.noise) + (if m.Execute? then Rows(fate.rows) else []) + [ErrorResponse(Failure(fate.error.value))])
    else
      match m
      case Close(name) => (srv.(stmts := srv.stmts - {name}), Noise(fate.noise) + [CloseComplete])
      case Parse(name, sql) =>
        if name in srv.stmts then (broken, Noise(fate.noise) + [ErrorResponse(DuplicateStatement(name))])
        else (srv.(stmts := srv.stmts[name := sql]), Noise(fate.noise) + [ParseComplete])
      case Describe(name) =>
        if name !in srv.stmts then (broken, Noise(fate.noise) + [ErrorResponse(UnknownStatement(name))])
        else (srv, Noise(fate.noise) + [ParameterDescription, if fate.returnsRows then RowDescription else NoData])
      case Bind(name) =>
        if name !in srv.stmts then (broken, Noise(fate.noise) + [ErrorResponse(UnknownStatement(name))])
        else (srv.(portal := Some(srv.stmts[name])), Noise(fate.noise) + [BindComplete])
      case Execute =>
        if srv.portal.None? then (broken, Noise(fate.noise) + [ErrorResponse(Failure(NO_PORTAL))])
        else (srv.(ran := srv.ran + [srv.portal.value]), Noise(fate.noise) + Rows(fate.rows) + [Finish(fate.tag)])
  }

  function ServeAll(srv: Server, front: seq<Front>, fates: seq<Fate>): (Server, seq<Reply>)
    requires |fates| == |front|
    decreases |front|
  {
    if front == [] then (srv, [])
    else
      var (srv1, r1) := Serve(srv, front[0], fates[0]);
      var (srv2, r2) := ServeAll(srv1, front[1..], fates[1..]);
      (srv2, r1 + r2)
  }

  lemma Slices<T>(s: seq<T>, k: nat)
    requires 0 < k <= |s|
    ensures s[..k][1..] == s[1..][..k - 1] && s[1..][k - 1..] == s[k..] && s[..k][0] == s[0]
  {
  }

  lemma ServeFirst(srv: Server, front: seq<Front>, fates: seq<Fate>)
    requires |fates| == |front| > 0
    ensures var (srv1, r1) := Serve(srv, front[0], fates[0]);
            var (srv2, r2) := ServeAll(srv1, front[1..], fates[1..]);
            ServeAll(srv, front, fates) == (srv2, r1 + r2)
  {
    hide Serve;
  }

  lemma ServeNothing(srv: Server, front: seq<Front>, fates: seq<Fate>)
    requires |fates| == |front| == 0
    ensures ServeAll(srv, front, fates) == (srv, [])
  {
  }

  lemma {:induction false} ServeConcat(srv: Server, a: seq<Front>, b: seq<Front>, fates: seq<Fate>)
    requires |fates| == |a| + |b|
    ensures var (srv1, r1) := ServeAll(srv, a, fates[..|a|]);
            var (srv2, r2) := ServeAll(srv1, b, fates[|a|..]);
            ServeAll(srv, a + b, fates) == (srv2, r1 + r2)
    decreases |a|
  {
    hide Serve, ServeAll;
    if a == [] {
      assert a + b == b && fates[0..] == fates;
      ServeNothing(srv, a, fates[..0]);
      var (srv2, r2) := ServeAll(srv, b, fates);
      assert [] + r2 == r2;
    } else {
      assert (a + b)[1..] == a[1..] + b && (a + b)[0] == a[0];
      Slices(fates, |a|);
      ServeFirst(srv, a + b, fates);
      ServeFirst(srv, a, fates[..|a|]);
      var (s0, r0) := Serve(srv, a[0], fates[0]);
      ServeConcat(s0, a[1..], b, fates[1..]);
      var (srv1, r1) := ServeAll(s0, a[1..], fates[1..][..|a| - 1]);
      var (srv2, r2) := ServeAll(srv1, b, fates[|a|..]);
      assert r0 + (r1 + r2) == (r0 + r1) + r2;
    }
  }

  function NextNames(names: set<Name>, m: Front): set<Name>
  {
    match m
    case Close(name) => names - {name}
    case Parse(name, _) => names + {name}
    case _ => names
  }

  /** The names the server holds after these messages, if none of them fails. */
  function NamesAfter(names: set<Name>, front: seq<Front>): set<Name>
    decreases |front|
  {
    if front == [] then names else NamesAfter(NextNames(names, front[0]), front[1..])
  }

  /** Why the server refuses a message, if it does: its fate, or a statement name. */
  function MessageError(names: set<Name>, m: Front, fate: Fate): Option<Error>
    requires !m.Sync?
  {
    if fate.error.Some? && !m.Close? then Some(Failure(fate.error.value))
    else
      match m
      case Parse(name, _) => if name in names then Some(DuplicateStatement(name)) else None
      case Describe(name) => if name in names then None else Some(UnknownStatement(name))
      case Bind(name) => if name in names then None else Some(UnknownStatement(name))
      case _ => None
  }

  predicate NoSyncIn(front: seq<Front>) { forall i :: 0 <= i < |front| ==> !front[i].Sync? }

  /** Every Execute comes after a Bind. */
  predicate BindsFirst(bound: bool, front: seq<Front>)
    decreases |front|
  {
    front == [] || ((front[0].Execute? ==> bound) && BindsFirst(bound || front[0].Bind?, front[1..]))
  }

  /** The first refusal among these messages. */
  function FirstError(names: set<Name>, front: seq<Front>, fates: seq<Fate>): Option<Error>
    requires |fates| == |front| && NoSyncIn(front)
    decreases |front|
  {
    if front == [] then None
    else if MessageError(names, front[0], fates[0]).Some? then MessageError(names, front[0], fates[0])
    else FirstError(NextNames(names, front[0]), front[1..], fates[1..])
  }

  lemma {:induction false} SkipAll(srv: Server, front: seq<Front>, fates: seq<Fate>)
    requires |fates| == |front| && srv.skipping && NoSyncIn(front)
    ensures ServeAll(srv, front, fates) == (srv, [])
    decreases |front|
  {
    var none: seq<Reply> := [];
    assert none + none == none;
    if front != [] {
      SkipAll(srv, front[1..], fates[1..]);
    }
  }

  lemma ServeOnce(srv: Server, m: Front, fate: Fate)
    requires !srv.skipping && !m.Sync? && (m.Execute? ==> srv.portal.Some?)
    ensures var (srv', replies) := Serve(srv, m, fate);
      match MessageError(srv.stmts.Keys, m, fate)
      case None =>
        srv'.stmts.Keys == NextNames(srv.stmts.Keys, m) && !srv'.skipping && srv'.portal.Some? == (srv.portal.Some? || m.Bind?)
      case Some(e) => srv'.skipping && replies != [] && replies[|replies| - 1] == ErrorResponse(e)
  {
  }

  /** The server starts skipping exactly at the first refusal, and that is the error it reports. */
  lemma {:induction false} FirstErrorServed(srv: Server, front: seq<Front>, fates: seq<Fate>)
    requires |fates| == |front| && !srv.skipping && NoSyncIn(front) && BindsFirst(srv.portal.Some?, front)
    ensures var (srv', replies) := ServeAll(srv, front, fates);
      match FirstError(srv.stmts.Keys, front, fates)
      case None => srv'.stmts.Keys == NamesAfter(srv.stmts.Keys, front) && !srv'.skipping
      case Some(e) => srv'.skipping && replies != [] && replies[|replies| - 1] == ErrorResponse(e)
    decreases |front|
  {
    if front != [] {
      hide Serve, MessageError;
      ServeOnce(srv, front[0], fates[0]);
      var (srv1, r1) := Serve(srv, front[0], fates[0]);
      if srv1.skipping {
        SkipAll(srv1, front[1..], fates[1..]);
        assert r1 + [] == r1;
      } else {
        FirstErrorServed(srv1, front[1..], fates[1..]);
      }
    }
  }

  predicate HasError(replies: seq<Reply>) { exists i :: 0 <= i < |replies| && replies[i].ErrorResponse? }

  /** No answer of the server complains about a statement it does not have or already has. */
  predicate NoNameErrors(replies: seq<Reply>)
  {
    forall i :: 0 <= i < |replies| && replies[i].ErrorResponse? ==> replies[i].err.Failure?
  }

  /**
   The statement names a pipeline may rely on: each Bind and Describe names a statement that is
   held when the pipeline starts and not closed in it, or Parsed earlier in it; and each Parse
   uses a name that is new.
  */
  predicate WellNamed(names: set<Name>, front: seq<Front>)
    decreases |front|
  {
    if front == [] then true
    else
      match front[0]
      case Close(name) => WellNamed(names - {name}, front[1..])
      case Parse(name, _) => name !in names && WellNamed(names + {name}, front[1..])
      case Describe(name) => name in names && WellNamed(names, front[1..])
      case Bind(name) => name in names && WellNamed(names, front[1..])
      case _ => WellNamed(names, front[1..])
  }

  lemma {:induction false} WellNamedConcat(names: set<Name>, a: seq<Front>, b: seq<Front>)
    ensures WellNamed(names, a + b) <==> WellNamed(names, a) && WellNamed(NamesAfter(names, a), b)
    ensures NamesAfter(names, a + b) == NamesAfter(NamesAfter(names, a), b)
    decreases |a|
  {
    if a == [] {
      assert a + b == b;
    } else {
      assert (a + b)[1..] == a[1..] + b;
      WellNamedConcat(NextNames(names, a[0]), a[1..], b);
    }
  }

  /** A statement that is held and not closed keeps its text, whatever else happens. */
  lemma {:induction false} ServeKeepsText(srv: Server, front: seq<Front>, fates: seq<Fate>, name: Name)
    requires |fates| == |front| && name in srv.stmts && Front.Close(name) !in front
    ensures var srv' := ServeAll(srv, front, fates).0; name in srv'.stmts && srv'.stmts[name] == srv.stmts[name]
    decreases |front|
  {
    if front != [] {
      var srv1 := Serve(srv, front[0], fates[0]).0;
      assert front[0] != Front.Close(name);
      ServeKeepsText(srv1, front[1..], fates[1..], name);
    }
  }

  /** A single pipeline: one Sync, at its end. */
  predicate OnePipeline(front: seq<Front>)
  {
    |front| > 0 && front[|front| - 1].Sync? && forall i :: 0 <= i < |front| - 1 ==> !front[i].Sync?
  }

  lemma {:induction false} SkippingIsSilent(srv: Server, front: seq<Front>, fates: seq<Fate>)
    requires |fates| == |front| && srv.skipping && OnePipeline(front)
    ensures ServeAll(srv, front, fates)
         == (srv.(skipping := false, portal := None), Noise(fates[|front| - 1].noise) + [ReadyForQuery])
    decreases |front|
  {
    var last := Noise(fates[|front| - 1].noise) + [ReadyForQuery];
    if |front| > 1 {
      SkippingIsSilent(srv, front[1..], fates[1..]);
      assert [] + last == last;
    } else {
      assert front[1..] == [];
      assert last + [] == last && Noise(fates[0].noise) + [] == Noise(fates[0].noise);
    }
  }

  lemma WellNamedNext(names: set<Name>, front: seq<Front>)
    requires front != [] && WellNamed(names, front)
    ensures WellNamed(NextNames(names, front[0]), front[1..])
  {
  }

  lemma ServeNames(srv: Server, m: Front, fate: Fate)
    requires !srv.skipping && !m.Sync?
    ensures var srv' := Serve(srv, m, fate).0; !srv'.skipping ==> srv'.stmts.Keys == NextNames(srv.stmts.Keys, m)
  {
  }

  /** Whatever fails and whenever, a well-named pipeline never meets a name error. */
  lemma {:induction false} WellNamedServes(srv: Server, front: seq<Front>, fates: seq<Fate>)
    requires |fates| == |front| && !srv.skipping && OnePipeline(front) && WellNamed(srv.stmts.Keys, front)
    ensures NoNameErrors(ServeAll(srv, front, fates).1)
    ensures !ServeAll(srv, front, fates).0.skipping
    decreases |front|
  {
    var (srv1, r1) := Serve(srv, front[0], fates[0]);
    NamedServe(srv, front, fates[0]);
    hide Serve, NoNameErrors;
    if |front| == 1 {
      assert front[1..] == [] && r1 + [] == r1;
      LastServed(srv, front, fates);
    } else if srv1.skipping {
      SkippingIsSilent(srv1, front[1..], fates[1..]);
      NoiseIsFine(fates[1..][|front| - 2].noise);
      ErrorsConcat(r1, ServeAll(srv1, front[1..], fates[1..]).1);
    } else {
      ServeNames(srv, front[0], fates[0]);
      WellNamedNext(srv.stmts.Keys, front);
      WellNamedServes(srv1, front[1..], fates[1..]);
      ErrorsConcat(r1, ServeAll(srv1, front[1..], fates[1..]).1);
    }
  }

  lemma NamedServe(srv: Server, front: seq<Front>, fate: Fate)
    requires !srv.skipping && front != [] && WellNamed(srv.stmts.Keys, front)
    ensures NoNameErrors(Serve(srv, front[0], fate).1)
    ensures front[0].Sync? ==> !Serve(srv, front[0], fate).0.skipping
  {
  }

  lemma LastServed(srv: Server, front: seq<Front>, fates: seq<Fate>)
    requires |fates| == |front| == 1
    ensures ServeAll(srv, front, fates) == (Serve(srv, front[0], fates[0]).0, Serve(srv, front[0], fates[0]).1 + [])
  {
    hide Serve;
    assert front[1..] == [] && fates[1..] == [];
  }

  lemma NoiseIsFine(texts: seq<string>)
    ensures NoNameErrors(Noise(texts) + [ReadyForQuery])
  {
  }

  lemma ErrorsConcat(a: seq<Reply>, b: seq<Reply>)
    requires NoNameErrors(a) && NoNameErrors(b)
    ensures NoNameErrors(a + b)
  {
  }
}
