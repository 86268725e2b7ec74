/** Requests being answered, in any interleaving: what the authority is asked,
    what runs, and in which order. */
module Dispatch {
  import opened Wrappers
  import opened AskKey
  import opened Casing
  import opened Routes
  import opened Operations
  import opened Interface
  import opened Artifact
  import opened Mux
  import opened Serving
  import P = Passthrough

  /** What a backend serves by: its declaration, the table made of its operations,
      its relayed routes, and the binding opened for each relayed module. An
      advisory one asks the authority's check as advice only. */
  datatype Backend = Backend(
    lib: Library, letters: Table, d: Declaration, table: DispatchTable,
    routes: map<string, P.Route>, relays: map<string, string>, advisory: bool)

  ghost predicate WellMade(b: Backend) {
    && IsTable(b.letters, b.table, b.d.operations)
    && Registers(b.lib, Patterns(b.d)) && Registers(b.lib, b.routes.Keys)
    && forall path :: path in b.routes ==> b.routes[path].path == path
  }

  /** A request at a path, and where the router leaves it: to an operation's
      pattern, to the MCP route, or to the passthrough, which looks for the rest of
      the decoded path. carried is the Work Context it came with. */
  datatype Request =
    | ToPattern(at: Path, pattern: string, verb: string, carried: string)
    | ToMcp(at: Path, verb: string, carried: string)
    | ToModules(at: Path, path: string, verb: string, carried: string)

  /** The router's own choice. A request it redirects is left nowhere. */
  ghost predicate Taken(b: Backend, r: Request) {
    && Registers(b.lib, Patterns(b.d)) && Clean(r.at)
    && match r
       case ToPattern(at, pattern, _, _) => pattern in OpPaths(b.d) && Takes(b.lib, Patterns(b.d), pattern, at)
       case ToMcp(at, _, _) => b.d.mcp.Some? && Takes(b.lib, Patterns(b.d), McpRoute(b.d.id), at)
       case ToModules(at, path, _, _) =>
         && b.d.consumed != [] && Takes(b.lib, Patterns(b.d), Mount(b.d.id), at)
         && Decoded(at) == AuthorityRoute(b.d.id) + path
  }

  /** What the authority answers a check: the call holds the route's policy, does
      not but is let through as advice, which only an advisory backend asks for, or
      is refused. */
  datatype Verdict = Held | Advised | Refusal

  predicate LetsThrough(b: Backend, v: Verdict) {
    v == Held || (v == Advised && b.advisory)
  }

  datatype Event =
    | Checked(id: nat, verb: string, route: string, verdict: Verdict)
    | Ran(id: nat, op: int)
    | ToolRan(id: nat)
    | Issued(id: nat, binding: string, scopes: seq<Scope>, granted: bool)
    | Called(id: nat, procedure: string)

  /** Something done for the caller. */
  predicate Acts(e: Event) {
    e.Ran? || e.ToolRan? || e.Issued? || e.Called?
  }

  datatype Pc = Arrived | Admitted | Holding | Ready | Done

  /** A request under way; runs says it was dispatched to something. */
  datatype Exchange = Exchange(request: Request, runs: bool, pc: Pc)

  datatype State = State(exchanges: map<nat, Exchange>, log: seq<Event>)

  // --- one request ---

  /** What a request is dispatched to, if it is to anything: nothing for a method
      its path does not declare, a path no route is at, or no Work Context. */
  ghost predicate Dispatched(b: Backend, r: Request) {
    && r.carried != "" && WellMade(b)
    && match r
       case ToPattern(_, pattern, verb, _) => Entry(b.table, pattern, verb)
       case ToMcp(_, verb, _) => b.d.mcp.Some? && verb == "POST"
       case ToModules(at, path, verb, _) =>
         && ComesTo(b.lib, b.d, b.routes, at, path) && verb == "POST"
         && b.routes[path].provider.audience in b.relays
  }

  /** What the request names is there. */
  predicate Aimed(b: Backend, r: Request) {
    match r
    case ToPattern(_, pattern, verb, _) => Entry(b.table, pattern, verb)
    case ToMcp(_, _, _) => true
    case ToModules(_, path, verb, _) =>
      path in b.routes && b.routes[path].provider.audience in b.relays && verb == "POST"
  }

  /** The row the authority is asked about. */
  function RowOf(b: Backend, r: Request): (string, string) {
    match r
    case ToPattern(_, pattern, verb, _) => (verb, ServedRoute(pattern))
    case ToMcp(_, _, _) => ("POST", McpRoute(b.d.id))
    case ToModules(_, path, verb, _) => (verb, AuthorityRoute(b.d.id) + path)
  }

  function CheckOf(b: Backend, id: nat, r: Request, v: Verdict): Event {
    Checked(id, RowOf(b, r).0, RowOf(b, r).1, v)
  }

  /** The steps of one request: the event it logs, if any, and where it stands
      after. The authority answers and grants as it likes; a capability may be
      renewed before the call it was issued for, and a pin may not merge. */
  ghost predicate Step(b: Backend, id: nat, x: Exchange, event: Option<Event>, pc: Pc) {
    match x.pc
    case Arrived =>
      if x.runs then exists v :: event == Some(CheckOf(b, id, x.request, v)) && Answers(b, v, pc)
      else event == None && pc == Done
    case Admitted =>
      x.runs && Aimed(b, x.request) &&
      (match x.request
       case ToPattern(_, pattern, verb, _) => event == Some(Ran(id, b.table[pattern][verb])) && pc == Done
       case ToMcp(_, _, _) => event == Some(ToolRan(id)) && pc == Done
       case ToModules(_, path, _, _) => Issues(b, id, path, event, pc, Holding))
    case Holding =>
      x.runs && Aimed(b, x.request) && x.request.ToModules? &&
      ((event == None && pc == Ready) || Issues(b, id, x.request.path, event, pc, Ready))
    case Ready =>
      x.runs && Aimed(b, x.request) && x.request.ToModules? && pc == Done &&
      (event == None || event == Some(Called(id, P.Procedure(b.routes[x.request.path]))))
    case Done => false
  }

  predicate Answers(b: Backend, v: Verdict, pc: Pc) {
    if LetsThrough(b, v) then pc == Admitted else v == Refusal && pc == Done
  }

  predicate Issues(b: Backend, id: nat, path: string, event: Option<Event>, pc: Pc, next: Pc)
    requires path in b.routes && b.routes[path].provider.audience in b.relays
  {
    || (event == Some(IssueFor(b, id, path, true)) && pc == next)
    || (event == Some(IssueFor(b, id, path, false)) && pc == Done)
  }

  function IssueFor(b: Backend, id: nat, path: string, granted: bool): Event
    requires path in b.routes && b.routes[path].provider.audience in b.relays
  {
    Issued(id, b.relays[b.routes[path].provider.audience], P.RouteScopes(b.routes[path]), granted)
  }

  function Logged(log: seq<Event>, event: Option<Event>): seq<Event> {
    match event
    case None => log
    case Some(e) => log + [e]
  }

  ghost predicate Arrives(b: Backend, s: State, s': State, id: nat, r: Request) {
    id !in s.exchanges && Taken(b, r) && s' == State(s.exchanges[id := Exchange(r, Dispatched(b, r), Arrived)], s.log)
  }

  ghost predicate Moves(b: Backend, s: State, s': State, id: nat, event: Option<Event>, pc: Pc) {
    && id in s.exchanges && Step(b, id, s.exchanges[id], event, pc)
    && s' == State(s.exchanges[id := s.exchanges[id].(pc := pc)], Logged(s.log, event))
  }

  ghost predicate Next(b: Backend, s: State, s': State) {
    || (exists id, r :: Arrives(b, s, s', id, r))
    || (exists id, event, pc :: Moves(b, s, s', id, event, pc))
  }

  const START := State(map[], [])

  ghost predicate Run(b: Backend, states: seq<State>) {
    && states != [] && states[0] == START
    && forall k :: 0 <= k < |states| - 1 ==> Next(b, states[k], states[k + 1])
  }

  // --- what every run keeps ---

  /** Before the n-th event, this request was checked for this row and let through. */
  predicate CheckedBefore(b: Backend, log: seq<Event>, n: nat, id: nat, row: (string, string)) {
    exists j :: 0 <= j < n <= |log| && Passed(b, log[j], id, row)
  }

  predicate Passed(b: Backend, e: Event, id: nat, row: (string, string)) {
    e.Checked? && e == Checked(id, row.0, row.1, e.verdict) && LetsThrough(b, e.verdict)
  }

  /** And before it, but after that, a child was issued for the route called. */
  predicate IssuedBefore(b: Backend, log: seq<Event>, n: nat, id: nat, path: string) {
    && path in b.routes && b.routes[path].provider.audience in b.relays
    && exists j :: 0 <= j < n <= |log| && IssuedAt(b, log, j, id, path)
  }

  predicate IssuedAt(b: Backend, log: seq<Event>, j: nat, id: nat, path: string)
    requires path in b.routes && b.routes[path].provider.audience in b.relays
  {
    && j < |log| && log[j] == IssueFor(b, id, path, true)
    && CheckedBefore(b, log, j, id, ("POST", AuthorityRoute(b.d.id) + path))
  }

  /** An event has behind it what its request needed. */
  ghost predicate Backed(b: Backend, s: State, n: nat)
    requires n < |s.log|
  {
    var e := s.log[n];
    && e.id in s.exchanges && s.exchanges[e.id].runs && (Acts(e) ==> Aimed(b, s.exchanges[e.id].request))
    && var r := s.exchanges[e.id].request;
       match e
       case Checked(_, verb, route, v) => (verb, route) == RowOf(b, r) && (v == Advised ==> b.advisory)
       case Ran(id, op) =>
         r.ToPattern? && op == b.table[r.pattern][r.verb] && CheckedBefore(b, s.log, n, id, RowOf(b, r))
       case ToolRan(id) => r.ToMcp? && CheckedBefore(b, s.log, n, id, RowOf(b, r))
       case Issued(id, _, _, granted) =>
         r.ToModules? && e == IssueFor(b, id, r.path, granted) && CheckedBefore(b, s.log, n, id, RowOf(b, r))
       case Called(id, procedure) =>
         r.ToModules? && procedure == P.Procedure(b.routes[r.path]) && IssuedBefore(b, s.log, n, id, r.path)
  }

  /** Where a request stands, the log shows. */
  ghost predicate StandsOn(b: Backend, s: State, id: nat)
    requires id in s.exchanges
  {
    var x := s.exchanges[id];
    && (x.pc == Admitted ==> x.runs && CheckedBefore(b, s.log, |s.log|, id, RowOf(b, x.request)))
    && (x.pc == Holding || x.pc == Ready ==>
          x.runs && x.request.ToModules? && IssuedBefore(b, s.log, |s.log|, id, x.request.path))
  }

  ghost predicate Inv(b: Backend, s: State) {
    && (forall n :: 0 <= n < |s.log| ==> Backed(b, s, n))
    && (forall id :: id in s.exchanges ==> StandsOn(b, s, id))
  }

  lemma CheckedStays(b: Backend, log: seq<Event>, more: seq<Event>, n: nat, id: nat, row: (string, string))
    requires CheckedBefore(b, log, n, id, row)
    ensures CheckedBefore(b, log + more, n, id, row) && CheckedBefore(b, log + more, |log + more|, id, row)
  {
    var j :| 0 <= j < n && Passed(b, log[j], id, row);
    assert (log + more)[j] == log[j];
  }

  lemma IssuedStays(b: Backend, log: seq<Event>, more: seq<Event>, n: nat, id: nat, path: string)
    requires IssuedBefore(b, log, n, id, path)
    ensures IssuedBefore(b, log + more, n, id, path) && IssuedBefore(b, log + more, |log + more|, id, path)
  {
    var j :| 0 <= j < n && IssuedAt(b, log, j, id, path);
    CheckedStays(b, log, more, j, id, ("POST", AuthorityRoute(b.d.id) + path));
    assert (log + more)[j] == log[j] && IssuedAt(b, log + more, j, id, path);
  }

  predicate SameRequest(x: Exchange, y: Exchange) { x.request == y.request && x.runs == y.runs }

  /** An earlier event keeps what is behind it as the log grows and requests move on. */
  lemma BackedStays(b: Backend, s: State, s': State, n: nat, more: seq<Event>)
    requires n < |s.log| && Backed(b, s, n) && s'.log == s.log + more
    requires forall id :: id in s.exchanges ==> id in s'.exchanges && SameRequest(s.exchanges[id], s'.exchanges[id])
    ensures Backed(b, s', n)
  {
    var e := s.log[n];
    var r := s.exchanges[e.id].request;
    assert s'.log[n] == e;
    if e.Called? {
      IssuedStays(b, s.log, more, n, e.id, r.path);
    } else if !e.Checked? {
      CheckedStays(b, s.log, more, n, e.id, RowOf(b, r));
    }
  }

  lemma StandsStays(b: Backend, s: State, s': State, id: nat, more: seq<Event>)
    requires id in s.exchanges && StandsOn(b, s, id) && s'.log == s.log + more
    requires id in s'.exchanges && s'.exchanges[id] == s.exchanges[id]
    ensures StandsOn(b, s', id)
  {
    var x := s.exchanges[id];
    if x.pc == Admitted { CheckedStays(b, s.log, more, |s.log|, id, RowOf(b, x.request)); }
    if x.pc == Holding || x.pc == Ready { IssuedStays(b, s.log, more, |s.log|, id, x.request.path); }
  }

  function MoreOf(event: Option<Event>): seq<Event> {
    match event
    case None => []
    case Some(e) => [e]
  }

  lemma MoveIsBacked(b: Backend, s: State, s': State, id: nat, event: Option<Event>, pc: Pc)
    requires id in s.exchanges && StandsOn(b, s, id) && Moves(b, s, s', id, event, pc)
    ensures event.Some? ==> Backed(b, s', |s.log|)
    ensures StandsOn(b, s', id)
  {
    match s.exchanges[id].pc {
      case Arrived => FromArrived(b, s, s', id, event, pc);
      case Admitted => FromAdmitted(b, s, s', id, event, pc);
      case _ => FromIssued(b, s, s', id, event, pc);
    }
  }

  lemma FromArrived(b: Backend, s: State, s': State, id: nat, event: Option<Event>, pc: Pc)
    requires id in s.exchanges && StandsOn(b, s, id) && Moves(b, s, s', id, event, pc) && s.exchanges[id].pc == Arrived
    ensures event.Some? ==> Backed(b, s', |s.log|)
    ensures StandsOn(b, s', id)
  {
    assert event.Some? ==> s'.log[|s.log|] == event.value;
    if pc == Admitted { assert Passed(b, s'.log[|s.log|], id, RowOf(b, s.exchanges[id].request)); }
  }

  lemma FromAdmitted(b: Backend, s: State, s': State, id: nat, event: Option<Event>, pc: Pc)
    requires id in s.exchanges && StandsOn(b, s, id) && Moves(b, s, s', id, event, pc) && s.exchanges[id].pc == Admitted
    ensures event.Some? ==> Backed(b, s', |s.log|)
    ensures StandsOn(b, s', id)
  {
    var r := s.exchanges[id].request;
    assert s'.log == s.log + MoreOf(event) && s'.log[|s.log|] == event.value;
    CheckedMoves(b, s.log, MoreOf(event), id, r);
    if pc == Holding { assert IssuedAt(b, s'.log, |s.log|, id, r.path); }
  }

  lemma FromIssued(b: Backend, s: State, s': State, id: nat, event: Option<Event>, pc: Pc)
    requires id in s.exchanges && StandsOn(b, s, id) && Moves(b, s, s', id, event, pc)
    requires s.exchanges[id].pc == Holding || s.exchanges[id].pc == Ready
    ensures event.Some? ==> Backed(b, s', |s.log|)
    ensures StandsOn(b, s', id)
  {
    assert s'.log == s.log + MoreOf(event);
    assert event.Some? ==> s'.log[|s.log|] == event.value;
    IssuedMoves(b, s.log, MoreOf(event), id, s.exchanges[id].request);
  }

  lemma CheckedMoves(b: Backend, log: seq<Event>, more: seq<Event>, id: nat, r: Request)
    requires CheckedBefore(b, log, |log|, id, RowOf(b, r))
    ensures CheckedBefore(b, log + more, |log|, id, RowOf(b, r))
  {
    CheckedStays(b, log, more, |log|, id, RowOf(b, r));
  }

  lemma IssuedMoves(b: Backend, log: seq<Event>, more: seq<Event>, id: nat, r: Request)
    requires Aimed(b, r) && r.ToModules? && IssuedBefore(b, log, |log|, id, r.path)
    ensures IssuedBefore(b, log + more, |log|, id, r.path) && IssuedBefore(b, log + more, |log + more|, id, r.path)
    ensures CheckedBefore(b, log + more, |log|, id, RowOf(b, r))
  {
    IssuedStays(b, log, more, |log|, id, r.path);
    var j :| 0 <= j < |log| && IssuedAt(b, log, j, id, r.path);
    CheckedStays(b, log, more, j, id, RowOf(b, r));
    var i :| 0 <= i < j && Passed(b, (log + more)[i], id, RowOf(b, r));
  }

  lemma ArrivalKeeps(b: Backend, s: State, s': State, id: nat, x: Exchange)
    requires Inv(b, s) && id !in s.exchanges && s' == State(s.exchanges[id := x], s.log) && x.pc == Arrived
    ensures Inv(b, s')
  {
    assert s'.log == s.log + [];
    forall n | 0 <= n < |s'.log| ensures Backed(b, s', n) { BackedStays(b, s, s', n, []); }
    forall other | other in s'.exchanges ensures StandsOn(b, s', other) {
      if other != id { StandsStays(b, s, s', other, []); }
    }
  }

  lemma MoveKeeps(b: Backend, s: State, s': State, id: nat, event: Option<Event>, pc: Pc)
    requires Inv(b, s) && Moves(b, s, s', id, event, pc)
    ensures Inv(b, s')
  {
    var more := MoreOf(event);
    assert s'.log == s.log + more && SameRequest(s.exchanges[id], s'.exchanges[id]);
    MoveIsBacked(b, s, s', id, event, pc);
    forall n | 0 <= n < |s.log| ensures Backed(b, s', n) { BackedStays(b, s, s', n, more); }
    forall other | other in s'.exchanges && other != id ensures StandsOn(b, s', other) {
      StandsStays(b, s, s', other, more);
    }
  }

  lemma InvKept(b: Backend, s: State, s': State)
    requires Inv(b, s) && Next(b, s, s')
    ensures Inv(b, s')
  {
    if id, r :| Arrives(b, s, s', id, r) {
      ArrivalKeeps(b, s, s', id, s'.exchanges[id]);
    } else {
      var id, event, pc :| Moves(b, s, s', id, event, pc);
      MoveKeeps(b, s, s', id, event, pc);
    }
  }

  /** Requests stand where the router took them, and run if they are dispatched. */
  ghost predicate Fair(b: Backend, x: Exchange) {
    Taken(b, x.request) && (x.runs <==> Dispatched(b, x.request))
  }

  ghost predicate AllFair(b: Backend, s: State) {
    forall id :: id in s.exchanges ==> Fair(b, s.exchanges[id])
  }

  lemma FairKept(b: Backend, s: State, s': State)
    requires AllFair(b, s) && Next(b, s, s')
    ensures AllFair(b, s')
  {
  }

  lemma {:induction false} InvAlways(b: Backend, states: seq<State>)
    requires Run(b, states)
    ensures Inv(b, Last(states)) && AllFair(b, Last(states))
  {
    if |states| > 1 {
      var before := states[..|states| - 1];
      assert forall k :: 0 <= k < |before| ==> before[k] == states[k];
      InvAlways(b, before);
      InvKept(b, Last(before), Last(states));
      FairKept(b, Last(before), Last(states));
    }
  }

  function Last(states: seq<State>): State
    requires states != []
  {
    states[|states| - 1]
  }

  // --- what follows for every run ---

  /** The request an event is of, dispatched where the router took it. */
  lemma RequestOf(b: Backend, states: seq<State>, n: nat) returns (r: Request)
    requires Run(b, states) && n < |Last(states).log|
    ensures var s := Last(states);
            Backed(b, s, n) && r == s.exchanges[s.log[n].id].request && Taken(b, r) && Dispatched(b, r)
  {
    InvAlways(b, states);
    var s := Last(states);
    assert Backed(b, s, n);
    r := s.exchanges[s.log[n].id].request;
    assert Fair(b, s.exchanges[s.log[n].id]);
  }

  /** What the declaration has for a request, where the router left it: an operation
      at that pattern for that method, the MCP server for a POST, or for a POST a
      relayed route, of a module whose relay is open, that the request comes to. */
  ghost predicate Declares(b: Backend, r: Request)
    requires WellMade(b)
  {
    match r
    case ToPattern(_, pattern, verb, _) =>
      exists o :: o in b.d.operations && o.path == pattern && Verb(b.letters, o) == verb
    case ToMcp(_, verb, _) => b.d.mcp.Some? && verb == "POST"
    case ToModules(at, path, verb, _) =>
      verb == "POST" && ComesTo(b.lib, b.d, b.routes, at, path) && b.routes[path].provider.audience in b.relays
  }

  lemma DispatchedIff(b: Backend, r: Request)
    requires WellMade(b)
    ensures Dispatched(b, r) <==> r.carried != "" && Declares(b, r)
  {
    if r.ToPattern? { EntryIff(b.letters, b.table, b.d.operations, r.pattern, r.verb); }
  }

  lemma EntryIff(t: Table, table: DispatchTable, ops: seq<Operation>, path: string, verb: string)
    requires IsTable(t, table, ops)
    ensures Entry(table, path, verb) <==> exists o :: o in ops && o.path == path && Verb(t, o) == verb
  {
    if Entry(table, path, verb) {
      assert EntryIsOf(t, table[path][verb], path, verb, ops);
    }
    if o :| o in ops && o.path == path && Verb(t, o) == verb {
      var i :| 0 <= i < |ops| && ops[i] == o;
      assert Entry(table, ops[i].path, Verb(t, ops[i]));
    }
  }

  /** A handler runs only for an operation that is declared at the request's pattern
      for its method, and only after this very request was checked for that
      operation's own row and let through: held to it, or, by an advisory backend
      alone, advised of it. */
  lemma HandlersRunChecked(b: Backend, states: seq<State>, n: nat)
    requires WellMade(b) && Run(b, states) && n < |Last(states).log| && Last(states).log[n].Ran?
    ensures var s, e := Last(states), Last(states).log[n];
            && 0 <= e.op < |b.d.operations| && e.id in s.exchanges && s.exchanges[e.id].request.ToPattern?
            && var o, r := b.d.operations[e.op], s.exchanges[e.id].request;
               && o.path == r.pattern && Verb(b.letters, o) == r.verb && Takes(b.lib, Patterns(b.d), o.path, r.at)
               && CheckedBefore(b, s.log, n, e.id, (r.verb, RouteOf(o)))
  {
    var r := RequestOf(b, states, n);
    assert EntryIsOf(b.letters, b.table[r.pattern][r.verb], r.pattern, r.verb, b.d.operations);
  }

  /** A tool runs only after this very request was checked for the MCP route's row. */
  lemma ToolsRunChecked(b: Backend, states: seq<State>, n: nat)
    requires Run(b, states) && n < |Last(states).log| && Last(states).log[n].ToolRan?
    ensures CheckedBefore(b, Last(states).log, n, Last(states).log[n].id, ("POST", "/v1/" + b.d.id + "/mcp"))
  {
    var r := RequestOf(b, states, n);
  }

  /** A request with no Work Context, or for which the declaration has nothing where
      the router left it, causes nothing: no Check, no handler, no tool, no issue and
      no call. */
  lemma UndeclaredIsSilent(b: Backend, states: seq<State>, id: nat, n: nat)
    requires WellMade(b) && Run(b, states) && id in Last(states).exchanges
    requires var r := Last(states).exchanges[id].request; r.carried == "" || !Declares(b, r)
    requires n < |Last(states).log|
    ensures Last(states).log[n].id != id
  {
    var r := RequestOf(b, states, n);
    DispatchedIff(b, r);
  }

  /** What the authority is asked for on a call's way to a module: through the
      module's own binding, the scopes the method declares, exactly those, where it
      declares any, and else exactly the module's. */
  lemma IssuesAskAsDeclared(b: Backend, registry: P.Registry, states: seq<State>, n: nat)
    requires WellMade(b) && P.Resolvable(b.d.consumed, registry) && P.IsRouting(b.routes, b.d.consumed, registry)
    requires Run(b, states) && n < |Last(states).log| && Last(states).log[n].Issued?
    ensures var s, e := Last(states), Last(states).log[n];
      && e.id in s.exchanges && s.exchanges[e.id].request.ToModules?
      && var path := s.exchanges[e.id].request.path;
         && path in b.routes
         && var m, rpc, md := b.routes[path].provider, b.routes[path].rpc, b.routes[path].md;
            && m in b.d.consumed && rpc in m.methods && P.Lookup(registry, rpc.name) == Some(md)
            && path == "/modules/" + m.audience + "/" + md.service + "/" + md.name
            && m.audience in b.relays && e.binding == b.relays[m.audience]
            && (rpc.scopes != [] ==> e.scopes == rpc.scopes)
            && (rpc.scopes == [] ==> e.scopes == m.scopes != [])
  {
    var r := RequestOf(b, states, n);
    P.RouteIsAsDeclared(b.d.consumed, registry, b.routes, r.path);
    P.RouteIsRelayable(b.d.consumed, registry, b.routes, r.path);
  }

  /** So declarations that differ in a module's own scopes alone issue alike for
      every method that declares its own, and for every other module's. */
  lemma ModuleScopesIssueAlike(b: Backend, registry: P.Registry, i: nat, scopes: seq<Scope>,
                               after: map<string, P.Route>, id: nat, path: string, granted: bool)
    requires P.Resolvable(b.d.consumed, registry) && P.IsRouting(b.routes, b.d.consumed, registry)
    requires i < |b.d.consumed|
    requires P.IsRouting(after, b.d.consumed[i := b.d.consumed[i].(scopes := scopes)], registry)
    requires path in b.routes && b.routes[path].provider.audience in b.relays
    requires b.routes[path].rpc.scopes != [] || b.routes[path].provider != b.d.consumed[i]
    ensures path in after && after[path].provider.audience in b.relays
    ensures IssueFor(b.(routes := after), id, path, granted) == IssueFor(b, id, path, granted)
  {
    P.ModuleScopesReachOnlyTheOthers(b.d.consumed, registry, b.routes, i, scopes, after, path);
  }

  /** A module is called only after the request was checked for the route's row and
      let through, and then a child was issued through the module's binding, asked
      for the method's own scopes or else the module's; and the request is one the
      router left to that route, whose own procedure is called. */
  lemma CallsFollowCheckAndIssue(b: Backend, states: seq<State>, n: nat)
    requires WellMade(b) && Run(b, states) && n < |Last(states).log| && Last(states).log[n].Called?
    ensures var s, log := Last(states), Last(states).log;
      exists i, j, path ::
        && 0 <= i < j < n && path in b.routes && b.routes[path].provider.audience in b.relays
        && log[n].id in s.exchanges && s.exchanges[log[n].id].request.ToModules?
        && s.exchanges[log[n].id].request.path == path
        && Passed(b, log[i], log[n].id, ("POST", "/v1/" + b.d.id + path))
        && var r := b.routes[path];
           && log[j] == Issued(log[n].id, b.relays[r.provider.audience],
                               if r.rpc.scopes == [] then r.provider.scopes else r.rpc.scopes, true)
           && log[n].procedure == "/" + r.md.service + "/" + r.md.name
  {
    var r := RequestOf(b, states, n);
    var log := Last(states).log;
    var row := ("POST", AuthorityRoute(b.d.id) + r.path);
    var j :| 0 <= j < n && IssuedAt(b, log, j, log[n].id, r.path);
    var i :| 0 <= i < j && Passed(b, log[i], log[n].id, row);
  }

  /** A relayed route an operation is declared over is never called, in any run:
      whatever comes to its path goes to the operation. */
  lemma ShadowedIsNeverCalled(b: Backend, registry: P.Registry, states: seq<State>, n: nat)
    requires WellMade(b) && Given(b.lib, b.d, registry, b.routes) && OpPaths(b.d) !! Others(b.d)
    requires Run(b, states) && n < |Last(states).log|
    ensures var s := Last(states);
            && s.log[n].id in s.exchanges
            && var r := s.exchanges[s.log[n].id].request;
               r.ToModules? ==> r.path in b.routes && b.d.consumed != [] && !Shadowed(b.lib, b.d, b.routes[r.path])
  {
    var r := RequestOf(b, states, n);
    if r.ToModules? { ShadowedIsNotReached(b.lib, b.d, registry, b.routes, r.at, r.path); }
  }

  /** A request for the path of such a route is not the passthrough's. */
  lemma ShadowedGoesElsewhere(b: Backend, r: Request, route: P.Route)
    requires WellMade(b) && Taken(b, r) && OpPaths(b.d) !! Others(b.d) && b.d.consumed != []
    requires r.at == Wire(b.d.id, route) && Shadowed(b.lib, b.d, route)
    ensures !r.ToModules?
  {
    var o :| o in b.d.operations && Shadows(b.lib, b.d, o, route);
    ShadowTakesIt(b.lib, b.d, o, route);
  }

  /** A path leads one way only: whatever request comes by it, the router leaves it to
      the same operations, to the MCP route, or to the same relayed route. */
  lemma PathLeadsOneWay(b: Backend, r: Request, q: Request)
    requires Taken(b, r) && Taken(b, q) && r.at == q.at && OpPaths(b.d) !! Others(b.d)
    ensures match r
            case ToPattern(_, pattern, _, _) => q.ToPattern? && q.pattern == pattern
            case ToMcp(_, _, _) => q.ToMcp?
            case ToModules(_, path, _, _) => q.ToModules? && q.path == path
  {
    OneTakes(b.lib, Patterns(b.d), LeftTo(b, r), LeftTo(b, q), r.at);
    MountIsNoMcp(b.d.id);
    assert b.d.mcp.Some? ==> McpRoute(b.d.id) in Others(b.d);
    assert b.d.consumed != [] ==> Mount(b.d.id) in Others(b.d);
    if r.ToModules? && q.ToModules? { SamePath(b.d.id, r.path, q.path); }
  }

  /** The outer router's pattern for it. */
  function LeftTo(b: Backend, r: Request): string {
    match r
    case ToPattern(_, pattern, _, _) => pattern
    case ToMcp(_, _, _) => McpRoute(b.d.id)
    case ToModules(_, _, _, _) => Mount(b.d.id)
  }

  lemma MountIsNoMcp(id: string)
    ensures Mount(id) != McpRoute(id)
  {
    assert Mount(id)[|Mount(id)| - 1] == '/' && McpRoute(id)[|McpRoute(id)| - 1] == 'p';
  }

  /** Whatever row the authority is asked about, in any run, is a row of the
      published document; and it answers with advice only where that is asked for. */
  lemma EveryRowAskedIsPublished(b: Backend, registry: P.Registry, info: Info, a: Published, states: seq<State>, n: nat)
    requires LikeUnicode(b.letters) && info.letters == b.letters
    requires IsArtifact(b.d, registry, info, a) && P.IsRouting(b.routes, b.d.consumed, registry) && WellMade(b)
    requires Run(b, states) && n < |Last(states).log| && Last(states).log[n].Checked?
    ensures HasRow(info.letters, a.paths, Last(states).log[n].verb, Last(states).log[n].route)
    ensures Last(states).log[n].verdict == Advised ==> b.advisory
  {
    var e := Last(states).log[n];
    var r := RequestOf(b, states, n);
    var pattern := PatternOf(b, registry, r);
    P.RoutingIsUnique(b.d.consumed, registry, a.routes, b.routes);
    PublishedIffDeclared(b.d, registry, info, a, e.verb, e.route);
  }

  lemma PatternOf(b: Backend, registry: P.Registry, r: Request) returns (pattern: string)
    requires LikeUnicode(b.letters) && WellMade(b) && Dispatched(b, r)
    requires P.Resolvable(b.d.consumed, registry) && P.IsRouting(b.routes, b.d.consumed, registry)
    ensures IsDeclared(b.letters, b.d, b.routes, pattern, RowOf(b, r).0) && ServedRoute(pattern) == RowOf(b, r).1
  {
    match r {
      case ToPattern(_, p, verb, _) =>
        assert EntryIsOf(b.letters, b.table[p][verb], p, verb, b.d.operations);
        pattern := p;
      case ToMcp(_, _, _) =>
        ServedAsWritten(b.d, registry, b.routes, "");
        pattern := McpRoute(b.d.id);
      case ToModules(_, path, _, _) =>
        ServedAsWritten(b.d, registry, b.routes, path);
        pattern := AuthorityRoute(b.d.id) + path;
    }
  }

  // --- enforced, or advisory ---

  /** Before the n-th event, its request was checked for its row and held to it. */
  ghost predicate HeldBefore(b: Backend, s: State, n: nat)
    requires n < |s.log|
  {
    exists j :: 0 <= j < n && s.log[n].id in s.exchanges
      && s.log[j] == CheckOf(b, s.log[n].id, s.exchanges[s.log[n].id].request, Held)
  }

  /** In every run, whatever is done was held to its row. */
  ghost predicate Enforced(b: Backend) {
    forall states, n :: Run(b, states) && 0 <= n < |Last(states).log| && Acts(Last(states).log[n]) ==>
      HeldBefore(b, Last(states), n)
  }

  lemma CheckedIsHeld(b: Backend, s: State, n: nat)
    requires !b.advisory && n < |s.log| && Acts(s.log[n]) && Backed(b, s, n)
    ensures HeldBefore(b, s, n)
  {
    var id := s.log[n].id;
    var r := s.exchanges[id].request;
    if s.log[n].Called? {
      var k :| 0 <= k < n && IssuedAt(b, s.log, k, id, r.path);
      var j :| 0 <= j < k && Passed(b, s.log[j], id, RowOf(b, r));
      assert s.log[j] == CheckOf(b, id, r, Held);
    } else {
      var j :| 0 <= j < n && Passed(b, s.log[j], id, RowOf(b, r));
      assert s.log[j] == CheckOf(b, id, r, Held);
    }
  }

  /** A request that is dispatched, let through, and acted on. */
  lemma LetThroughSteps(b: Backend, r: Request, v: Verdict)
    returns (s1: State, s2: State, s3: State, act: Event, pc: Pc)
    requires LetsThrough(b, v) && Aimed(b, r)
    ensures s1 == State(map[0 := Exchange(r, true, Arrived)], [])
    ensures Next(b, s1, s2) && Next(b, s2, s3)
    ensures FirstOf(b, r, act, pc) && s3 == State(map[0 := Exchange(r, true, pc)], [CheckOf(b, 0, r, v), act])
  {
    var check := CheckOf(b, 0, r, v);
    act, pc := FirstAct(b, r);
    s1 := State(map[0 := Exchange(r, true, Arrived)], []);
    s2 := State(map[0 := Exchange(r, true, Admitted)], [check]);
    s3 := State(map[0 := Exchange(r, true, pc)], [check, act]);
    assert Answers(b, v, Admitted) && Step(b, 0, s1.exchanges[0], Some(check), Admitted);
    assert s2.exchanges == s1.exchanges[0 := s1.exchanges[0].(pc := Admitted)] && s2.log == s1.log + [check];
    assert Moves(b, s1, s2, 0, Some(check), Admitted);
    assert s3.exchanges == s2.exchanges[0 := s2.exchanges[0].(pc := pc)] && s3.log == s2.log + [act];
    assert Moves(b, s2, s3, 0, Some(act), pc);
  }

  /** What is first done of a request, and where it stands then. */
  predicate FirstOf(b: Backend, r: Request, act: Event, pc: Pc)
    requires Aimed(b, r)
  {
    match r
    case ToPattern(_, pattern, verb, _) => act == Ran(0, b.table[pattern][verb]) && pc == Done
    case ToMcp(_, _, _) => act == ToolRan(0) && pc == Done
    case ToModules(_, path, _, _) => act == IssueFor(b, 0, path, true) && pc == Holding
  }

  lemma FirstAct(b: Backend, r: Request) returns (act: Event, pc: Pc)
    requires Aimed(b, r)
    ensures FirstOf(b, r, act, pc) && Acts(act) && act.id == 0
    ensures Step(b, 0, Exchange(r, true, Admitted), Some(act), pc)
  {
    match r {
      case ToPattern(_, pattern, verb, _) => act, pc := Ran(0, b.table[pattern][verb]), Done;
      case ToMcp(_, _, _) => act, pc := ToolRan(0), Done;
      case ToModules(_, path, _, _) => act, pc := IssueFor(b, 0, path, true), Holding;
    }
  }

  lemma DispatchedArrives(b: Backend, r: Request, s: State)
    requires Taken(b, r) && Dispatched(b, r) && s == State(map[0 := Exchange(r, true, Arrived)], [])
    ensures Next(b, START, s)
  {
    assert START.exchanges[0 := Exchange(r, true, Arrived)] == s.exchanges;
    assert Arrives(b, START, s, 0, r);
  }

  lemma DispatchedIsAimed(b: Backend, r: Request)
    requires Dispatched(b, r)
    ensures Aimed(b, r)
  {
  }

  lemma RunOfThree(b: Backend, s1: State, s2: State, s3: State)
    requires Next(b, START, s1) && Next(b, s1, s2) && Next(b, s2, s3)
    ensures Run(b, [START, s1, s2, s3])
  {
  }

  /** A run an advisory backend lets through, on advice alone. */
  lemma AdvisedRun(b: Backend, r: Request) returns (states: seq<State>)
    requires b.advisory && Taken(b, r) && Dispatched(b, r)
    ensures Run(b, states) && |Last(states).log| == 2 && Acts(Last(states).log[1])
    ensures !HeldBefore(b, Last(states), 1)
  {
    DispatchedIsAimed(b, r);
    var s1, s2, s3, act, pc := LetThroughSteps(b, r, Advised);
    DispatchedArrives(b, r, s1);
    RunOfThree(b, s1, s2, s3);
    states := [START, s1, s2, s3];
    OnlyAdvised(b, r, s3);
  }

  lemma OnlyAdvised(b: Backend, r: Request, s: State)
    requires |s.log| == 2 && s.log[0] == CheckOf(b, 0, r, Advised)
    ensures !HeldBefore(b, s, 1)
  {
  }

  lemma AdvisoryIsNotEnforced(b: Backend, r: Request)
    requires b.advisory && Taken(b, r) && Dispatched(b, r)
    ensures !Enforced(b)
  {
    var states := AdvisedRun(b, r);
    var s := Last(states);
    assert Acts(s.log[1]) && !HeldBefore(b, s, 1);
  }

  lemma OthersAreEnforced(b: Backend, states: seq<State>, n: nat)
    requires !b.advisory || forall r :: Taken(b, r) ==> !Dispatched(b, r)
    requires Run(b, states) && n < |Last(states).log| && Acts(Last(states).log[n])
    ensures HeldBefore(b, Last(states), n)
  {
    var r := RequestOf(b, states, n);
    assert !b.advisory;
    CheckedIsHeld(b, Last(states), n);
  }

  /** The authority's check is a condition of everything done, in every run,
      exactly when the backend is not advisory, or the declaration has nothing for
      any request that carries a Work Context. */
  lemma EnforcedIff(b: Backend)
    requires WellMade(b)
    ensures Enforced(b) <==> !b.advisory || forall r :: Taken(b, r) && r.carried != "" ==> !Declares(b, r)
  {
    forall r ensures Dispatched(b, r) <==> r.carried != "" && Declares(b, r) { DispatchedIff(b, r); }
    if !b.advisory || forall r :: Taken(b, r) ==> !Dispatched(b, r) {
      forall states, n | Run(b, states) && 0 <= n < |Last(states).log| && Acts(Last(states).log[n])
        ensures HeldBefore(b, Last(states), n)
      {
        OthersAreEnforced(b, states, n);
      }
    } else {
      var r :| Taken(b, r) && Dispatched(b, r);
      AdvisoryIsNotEnforced(b, r);
    }
  }

  // --- what is declared is answered ---

  /** The call that follows a granted issue. */
  lemma CallSteps(b: Backend, r: Request, log: seq<Event>) returns (s1: State, s2: State, s3: State)
    requires Aimed(b, r) && r.ToModules?
    ensures s1 == State(map[0 := Exchange(r, true, Holding)], log)
    ensures Next(b, s1, s2) && Next(b, s2, s3)
    ensures s3 == State(map[0 := Exchange(r, true, Done)], log + [Called(0, P.Procedure(b.routes[r.path]))])
  {
    var call := Called(0, P.Procedure(b.routes[r.path]));
    s1 := State(map[0 := Exchange(r, true, Holding)], log);
    s2 := State(map[0 := Exchange(r, true, Ready)], log);
    s3 := State(map[0 := Exchange(r, true, Done)], log + [call]);
    assert s2.exchanges == s1.exchanges[0 := s1.exchanges[0].(pc := Ready)];
    assert Step(b, 0, s1.exchanges[0], None, Ready) && Moves(b, s1, s2, 0, None, Ready);
    assert s3.exchanges == s2.exchanges[0 := s2.exchanges[0].(pc := Done)];
    assert Step(b, 0, s2.exchanges[0], Some(call), Done) && Moves(b, s2, s3, 0, Some(call), Done);
  }

  lemma RunGoesOn(b: Backend, states: seq<State>, s1: State, s2: State)
    requires Run(b, states) && Next(b, Last(states), s1) && Next(b, s1, s2)
    ensures Run(b, states + [s1, s2])
  {
    var more := states + [s1, s2];
    forall k | 0 <= k < |more| - 1 ensures Next(b, more[k], more[k + 1]) {
      if k < |states| - 1 { assert more[k] == states[k] && more[k + 1] == states[k + 1]; }
    }
  }

  /** A request that carries a Work Context, and for which the declaration has
      something: in some run it is checked for its own row, and then the operation
      declared for it runs, or the tool does, or the module is called, through its
      binding and for what its method declares. */
  lemma WhatIsDeclaredIsAnswered(b: Backend, r: Request) returns (states: seq<State>)
    requires WellMade(b) && Taken(b, r) && r.carried != "" && Declares(b, r)
    ensures Run(b, states) && 0 in Last(states).exchanges && Last(states).exchanges[0].request == r
    ensures var log := Last(states).log;
      match r
      case ToPattern(_, pattern, verb, _) =>
        && |log| == 2 && log[1].Ran? && log[1].id == 0 && 0 <= log[1].op < |b.d.operations|
        && var o := b.d.operations[log[1].op];
           o.path == pattern && Verb(b.letters, o) == verb && log[0] == Checked(0, verb, RouteOf(o), Held)
      case ToMcp(_, _, _) => log == [Checked(0, "POST", "/v1/" + b.d.id + "/mcp", Held), ToolRan(0)]
      case ToModules(_, path, _, _) =>
        && path in b.routes && b.routes[path].provider.audience in b.relays
        && var route := b.routes[path];
           log == [Checked(0, "POST", "/v1/" + b.d.id + path, Held),
                   Issued(0, b.relays[route.provider.audience],
                          if route.rpc.scopes == [] then route.provider.scopes else route.rpc.scopes, true),
                   Called(0, "/" + route.md.service + "/" + route.md.name)]
  {
    DispatchedIff(b, r);
    DispatchedIsAimed(b, r);
    var s1, s2, s3, act, pc := LetThroughSteps(b, r, Held);
    DispatchedArrives(b, r, s1);
    RunOfThree(b, s1, s2, s3);
    states := [START, s1, s2, s3];
    if r.ToPattern? {
      assert EntryIsOf(b.letters, b.table[r.pattern][r.verb], r.pattern, r.verb, b.d.operations);
    }
    if r.ToModules? {
      var t1, t2, t3 := CallSteps(b, r, s3.log);
      RunGoesOn(b, states, t2, t3);
      states := states + [t2, t3];
    }
  }

  /** In some run something is logged of the request. */
  ghost predicate SpokenOf(b: Backend, r: Request) {
    exists states, n :: Run(b, states) && LogsOf(Last(states), n, r)
  }

  ghost predicate LogsOf(s: State, n: nat, r: Request) {
    n < |s.log| && s.log[n].id in s.exchanges && s.exchanges[s.log[n].id].request == r
  }

  /** So a request causes anything at all exactly when it carries a Work Context and
      the declaration has something for it where the router left it. */
  lemma SpokenOfIff(b: Backend, r: Request)
    requires WellMade(b) && Taken(b, r)
    ensures SpokenOf(b, r) <==> r.carried != "" && Declares(b, r)
  {
    if states, n :| Run(b, states) && LogsOf(Last(states), n, r) {
      var q := RequestOf(b, states, n);
      DispatchedIff(b, r);
    }
    if r.carried != "" && Declares(b, r) {
      var states := WhatIsDeclaredIsAnswered(b, r);
      assert LogsOf(Last(states), 0, r);
    }
  }
}
