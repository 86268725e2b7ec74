/** The interface artifact: one declaration, and the rows published for all it
    serves — its operations, its MCP route and the relayed routes. */
module Artifact {
  import opened Wrappers
  import T = Text
  import opened Casing
  import opened Routes
  import opened Operations
  import opened Interface
  import P = Passthrough

  /** The MCP surface, as declared; again says it was declared more than once. */
  datatype Mcp = Mcp(name: string, version: string, tools: bool, policy: Option<Policy>, again: bool)

  datatype Declaration = Declaration(
    id: string, operations: seq<Operation>, mcp: Option<Mcp>, consumed: seq<P.ConsumedModule>)

  datatype McpFault = DeclaredAgain | NoName | NoVersion | NoTools | McpPolicy(fault: PolicyFault) | RouteTaken

  datatype ArtifactFault = McpRefused(mcp: McpFault) | ModulesRefused(modules: P.Fault) | NotRendered(rows: RenderFault)

  function AuthorityRoute(id: string): string { "/v1/" + id }
  function McpRoute(id: string): string { AuthorityRoute(id) + "/mcp" }

  function McpFaultOf(d: Declaration): Option<McpFault> {
    match d.mcp
    case None => None
    case Some(m) =>
      if m.again then Some(DeclaredAgain)
      else if P.Blank(m.name) then Some(NoName)
      else if P.Blank(m.version) then Some(NoVersion)
      else if !m.tools then Some(NoTools)
      else
        match PolicyFaultOf(m.policy)
        case Some(fault) => Some(McpPolicy(fault))
        case None => if exists o :: o in d.operations && o.path == McpRoute(d.id) then Some(RouteTaken) else None
  }

  /** An MCP surface that can be served: declared once, named, versioned, with tools,
      with a policy that says something, and with no operation at its route. */
  predicate CanBeMcp(d: Declaration, m: Mcp) {
    && !m.again && P.Trimmed(m.name) != "" && P.Trimmed(m.version) != "" && m.tools
    && m.policy.Some? && Says(m.policy.value)
    && forall i :: 0 <= i < |d.operations| ==> d.operations[i].path != "/v1/" + d.id + "/mcp"
  }

  lemma McpIff(d: Declaration)
    ensures McpFaultOf(d) == None <==> d.mcp.None? || CanBeMcp(d, d.mcp.value)
  {
    if d.mcp.Some? {
      P.BlankIff(d.mcp.value.name);
      P.BlankIff(d.mcp.value.version);
      PolicyIff(d.mcp.value.policy);
      assert forall i :: 0 <= i < |d.operations| ==> d.operations[i] in d.operations;
    }
  }

  /** The MCP route and a relayed route as the document is given them. Neither is
      this backend's own operation, so neither is offered to a model. */
  function McpOperation(id: string, m: Mcp): Operation {
    Operation(McpRoute(id), "post",
              "Call the " + m.name + " MCP server's tools as the viewer", "Agent clients",
              "One JSON-RPC message per POST",
              true, true, false, m.policy, false, true, "")
  }

  function RelayedOperation(base: string, r: P.Route): Operation {
    Operation(base + r.path, "post",
              "Call " + r.md.service + "." + r.md.name + " on the " + r.provider.audience + " module as the viewer",
              "Signed-in people", "A Connect call relayed to " + P.Procedure(r),
              true, true, false, Some(Policy([], true)), r.md.streamsAnswers, true, "")
  }

  /** The relayed operations of these routes: one of each, and no other. */
  ghost predicate RelaysOf(ops: seq<Operation>, base: string, routes: map<string, P.Route>) {
    && |ops| == |routes|
    && (forall i :: 0 <= i < |ops| ==> Relays(ops[i], base, routes))
    && (forall path :: path in routes ==> RelayedOperation(base, routes[path]) in ops)
  }

  predicate Relays(o: Operation, base: string, routes: map<string, P.Route>) {
    exists path :: path in routes && o == RelayedOperation(base, routes[path])
  }

  method PassthroughOperations(modules: seq<P.ConsumedModule>, registry: P.Registry, base: string)
    returns (r: Result<seq<Operation>, P.Fault>, routes: map<string, P.Route>)
    ensures r.Ok? <==> P.Resolvable(modules, registry)
    ensures r.Ok? ==> P.IsRouting(routes, modules, registry) && RelaysOf(r.value, base, routes)
    ensures r.Ok? ==> T.Ascending(r.value, OpPath)
    ensures r.Err? ==> P.Blames(modules, registry, r.error)
  {
    var resolved := P.ResolvePassthrough(modules, registry);
    if resolved.Err? {
      return Err(resolved.error), map[];
    }
    routes := resolved.value;
    var ops := DescribeRelays(routes, base);
    return Ok(ops), routes;
  }

  function OpPath(o: Operation): string { o.path }

  method DescribeRelays(routes: map<string, P.Route>, base: string) returns (ops: seq<Operation>)
    requires forall path :: path in routes ==> routes[path].path == path
    ensures RelaysOf(ops, base, routes) && T.Ascending(ops, OpPath)
  {
    var paths := SortedPaths(routes.Keys);
    ops := [];
    for i := 0 to |paths|
      invariant |ops| == i && forall k :: 0 <= k < i ==> ops[k] == RelayedOperation(base, routes[paths[k]])
    {
      ops := ops + [RelayedOperation(base, routes[paths[i]])];
    }
    AllDescribed(routes, base, paths, ops);
    InPathOrder(routes, base, paths, ops);
  }

  lemma InPathOrder(routes: map<string, P.Route>, base: string, paths: seq<string>, ops: seq<Operation>)
    requires |paths| == |ops| && T.Ascending(paths, T.Same) && forall path :: path in paths ==> path in routes
    requires forall path :: path in routes ==> routes[path].path == path
    requires forall k :: 0 <= k < |ops| ==> ops[k] == RelayedOperation(base, routes[paths[k]])
    ensures T.Ascending(ops, OpPath)
  {
    forall i, j | 0 <= i < j < |ops| ensures !T.Below(OpPath(ops[j]), OpPath(ops[i])) {
      assert OpPath(ops[i]) == base + paths[i] && OpPath(ops[j]) == base + paths[j];
      assert !T.Below(T.Same(paths[j]), T.Same(paths[i]));
      T.BelowBehind(base, paths[j], paths[i]);
    }
  }

  lemma AllDescribed(routes: map<string, P.Route>, base: string, paths: seq<string>, ops: seq<Operation>)
    requires |paths| == |ops| == |routes| && (forall path :: path in paths <==> path in routes)
    requires forall k :: 0 <= k < |ops| ==> ops[k] == RelayedOperation(base, routes[paths[k]])
    ensures RelaysOf(ops, base, routes)
  {
  }

  method SortedPaths(keys: set<string>) returns (paths: seq<string>)
    ensures forall k :: k in paths <==> k in keys
    ensures |paths| == |keys| && T.Ascending(paths, T.Same) && T.Distinct(paths, T.Same)
  {
    var listed: seq<string> := [];
    var rest := keys;
    while rest != {}
      invariant rest <= keys && |listed| + |rest| == |keys|
      invariant (forall k :: k in listed <==> k in keys && k !in rest) && T.Distinct(listed, T.Same)
    {
      var k :| k in rest;
      listed, rest := listed + [k], rest - {k};
    }
    paths := T.Sort(listed, T.Same);
    T.RearrangedIsDistinct(listed, paths, T.Same);
  }

  // --- the whole surface ---

  /** Everything a solution serves, as the document is given it. */
  function SurfaceOf(d: Declaration, relayed: seq<Operation>): seq<Operation> {
    d.operations + (if d.mcp.Some? then [McpOperation(d.id, d.mcp.value)] else []) + relayed
  }

  datatype Published = Published(paths: Paths, relayed: seq<Operation>, routes: map<string, P.Route>)

  /** What a published artifact is of: the declaration's whole surface, each part
      accepted by its own rules. */
  ghost predicate IsArtifact(d: Declaration, registry: P.Registry, info: Info, a: Published) {
    && McpFaultOf(d) == None
    && P.Resolvable(d.consumed, registry) && P.IsRouting(a.routes, d.consumed, registry)
    && RelaysOf(a.relayed, AuthorityRoute(d.id), a.routes)
    && Renderable(info, SurfaceOf(d, a.relayed)) && IsDocument(info, a.paths, SurfaceOf(d, a.relayed))
  }

  method InterfaceArtifact(d: Declaration, registry: P.Registry, info: Info)
    returns (r: Result<Published, ArtifactFault>)
    ensures r.Ok? ==> IsArtifact(d, registry, info, r.value)
    ensures r.Err? && r.error.McpRefused? ==> McpFaultOf(d) == Some(r.error.mcp)
    ensures r.Err? && r.error.ModulesRefused? ==> P.Blames(d.consumed, registry, r.error.modules)
    ensures r.Err? && r.error.NotRendered? ==> NotRenderable(d, registry, info, r.error.rows)
  {
    var refused := McpFaultOf(d);
    if refused.Some? {
      return Err(McpRefused(refused.value));
    }
    var relayed, routes := PassthroughOperations(d.consumed, registry, AuthorityRoute(d.id));
    if relayed.Err? {
      return Err(ModulesRefused(relayed.error));
    }
    var paths := Render(info, SurfaceOf(d, relayed.value));
    if paths.Err? {
      return Err(NotRendered(paths.error));
    }
    return Ok(Published(paths.value, relayed.value, routes));
  }

  /** A refusal of the rows is true of the surface of some resolved routes. */
  ghost predicate NotRenderable(d: Declaration, registry: P.Registry, info: Info, e: RenderFault) {
    exists relayed, routes ::
      P.IsRouting(routes, d.consumed, registry) && RelaysOf(relayed, AuthorityRoute(d.id), routes) &&
      Refused(AllFacts(info, SurfaceOf(d, relayed)), e)
  }

  // --- what an artifact says of what is declared ---

  /** A pattern and a method the declaration has something for: an operation, the MCP
      route, a relayed route. Whether the router lets a request through to it is
      another matter (Serving). */
  predicate IsDeclared(t: Table, d: Declaration, routes: map<string, P.Route>, pattern: string, verb: string) {
    || (exists o :: o in d.operations && o.path == pattern && Verb(t, o) == verb)
    || (d.mcp.Some? && pattern == McpRoute(d.id) && verb == "POST")
    || (exists path :: path in routes && pattern == AuthorityRoute(d.id) + path && verb == "POST")
  }

  /** The MCP route and every relayed route are spelled for the authority as they
      are served. */
  lemma ServedAsWritten(d: Declaration, registry: P.Registry, routes: map<string, P.Route>, path: string)
    requires P.Resolvable(d.consumed, registry) && P.IsRouting(routes, d.consumed, registry)
    ensures ServedRoute(McpRoute(d.id)) == McpRoute(d.id)
    ensures path in routes ==> ServedRoute(AuthorityRoute(d.id) + path) == AuthorityRoute(d.id) + path
  {
    PlainEnding(McpRoute(d.id));
    if path in routes {
      var r := routes[path];
      assert P.Declared(d.consumed, r, path, registry);
      P.LookupIsNamed(registry, r.rpc.name, r.md);
      var whole := AuthorityRoute(d.id) + path;
      assert whole[|whole| - 1] == r.md.name[|r.md.name| - 1];
      PlainEnding(whole);
    }
  }

  /** The i-th of the surface, and the pattern and method it is declared under. */
  lemma SurfaceIsDeclared(t: Table, d: Declaration, a: Published, i: nat)
    requires LikeUnicode(t) && RelaysOf(a.relayed, AuthorityRoute(d.id), a.routes) && i < |SurfaceOf(d, a.relayed)|
    requires forall path :: path in a.routes ==> a.routes[path].path == path
    ensures var o := SurfaceOf(d, a.relayed)[i]; IsDeclared(t, d, a.routes, o.path, Verb(t, o))
  {
    var o := SurfaceOf(d, a.relayed)[i];
    if i < |d.operations| {
      assert o in d.operations;
    } else {
      if o in a.relayed {
        var k :| 0 <= k < |a.relayed| && a.relayed[k] == o;
        assert Relays(a.relayed[k], AuthorityRoute(d.id), a.routes);
      }
      PostIsPost(t, o);
    }
  }

  lemma DeclaredIsInSurface(t: Table, d: Declaration, a: Published, pattern: string, verb: string) returns (i: nat)
    requires LikeUnicode(t) && RelaysOf(a.relayed, AuthorityRoute(d.id), a.routes)
    requires IsDeclared(t, d, a.routes, pattern, verb)
    requires forall path :: path in a.routes ==> a.routes[path].path == path
    ensures i < |SurfaceOf(d, a.relayed)| && SurfaceOf(d, a.relayed)[i].path == pattern
    ensures Verb(t, SurfaceOf(d, a.relayed)[i]) == verb
  {
    if o :| o in d.operations && o.path == pattern && Verb(t, o) == verb {
      i :| 0 <= i < |d.operations| && d.operations[i] == o;
    } else if d.mcp.Some? && pattern == McpRoute(d.id) && verb == "POST" {
      i := |d.operations|;
      PostIsPost(t, McpOperation(d.id, d.mcp.value));
    } else {
      var path :| path in a.routes && pattern == AuthorityRoute(d.id) + path;
      i := RelayInSurface(d, a, path);
      PostIsPost(t, RelayedOperation(AuthorityRoute(d.id), a.routes[path]));
    }
  }

  lemma PostIsPost(t: Table, o: Operation)
    requires LikeUnicode(t) && o.spelled == "post"
    ensures Verb(t, o) == "POST"
  {
  }

  lemma RelayInSurface(d: Declaration, a: Published, path: string) returns (i: nat)
    requires RelaysOf(a.relayed, AuthorityRoute(d.id), a.routes) && path in a.routes
    ensures |SurfaceOf(d, [])| <= i < |SurfaceOf(d, a.relayed)|
    ensures SurfaceOf(d, a.relayed)[i] == RelayedOperation(AuthorityRoute(d.id), a.routes[path])
  {
    var o := RelayedOperation(AuthorityRoute(d.id), a.routes[path]);
    assert o in a.relayed;
    var k :| 0 <= k < |a.relayed| && a.relayed[k] == o;
    i := |SurfaceOf(d, a.relayed)| - |a.relayed| + k;
  }

  /** The row the authority is asked about for a request dispatched to a pattern,
      as it is published: is there one? */
  predicate HasRow(t: Table, paths: Paths, verb: string, route: string) {
    route in paths && exists key :: key in paths[route] && Upper(t, key) == verb
  }

  /** The rows are exactly the declared surface: a row is in the document, in its
      capital form, exactly when something is declared that is spelled so. */
  lemma PublishedIffDeclared(
      d: Declaration, registry: P.Registry, info: Info, a: Published, verb: string, route: string)
    requires LikeUnicode(info.letters) && IsArtifact(d, registry, info, a)
    ensures HasRow(info.letters, a.paths, verb, route) <==>
            exists pattern :: IsDeclared(info.letters, d, a.routes, pattern, verb) && ServedRoute(pattern) == route
  {
    RoutesAreAtTheirPaths(d, registry, a);
    RowsAreOfTheSurface(info, SurfaceOf(d, a.relayed), a.paths, verb, route);
    SurfaceIsWhatIsDeclared(info.letters, d, a, verb, route);
  }

  lemma SurfaceIsWhatIsDeclared(t: Table, d: Declaration, a: Published, verb: string, route: string)
    requires LikeUnicode(t) && RelaysOf(a.relayed, AuthorityRoute(d.id), a.routes)
    requires forall path :: path in a.routes ==> a.routes[path].path == path
    ensures var surface := SurfaceOf(d, a.relayed);
            ((exists i :: 0 <= i < |surface| && Verb(t, surface[i]) == verb && RouteOf(surface[i]) == route)
            <==> exists pattern :: IsDeclared(t, d, a.routes, pattern, verb) && ServedRoute(pattern) == route)
  {
    var surface := SurfaceOf(d, a.relayed);
    if i :| 0 <= i < |surface| && Verb(t, surface[i]) == verb && RouteOf(surface[i]) == route {
      SurfaceIsDeclared(t, d, a, i);
    }
    if pattern :| IsDeclared(t, d, a.routes, pattern, verb) && ServedRoute(pattern) == route {
      var i := DeclaredIsInSurface(t, d, a, pattern, verb);
    }
  }

  lemma RowsAreOfTheSurface(info: Info, ops: seq<Operation>, paths: Paths, verb: string, route: string)
    requires LikeUnicode(info.letters) && Renderable(info, ops) && IsDocument(info, paths, ops)
    ensures HasRow(info.letters, paths, verb, route) <==>
            exists i :: 0 <= i < |ops| && Verb(info.letters, ops[i]) == verb && RouteOf(ops[i]) == route
  {
    if HasRow(info.letters, paths, verb, route) {
      var key :| key in paths[route] && Upper(info.letters, key) == verb;
      var i := OpOfRow(info, ops, paths, route, key);
      KeyIsTheVerb(info.letters, ops[i]);
    }
    if i :| 0 <= i < |ops| && Verb(info.letters, ops[i]) == verb && RouteOf(ops[i]) == route {
      RowOfOp(info, ops, paths, i);
      KeyIsTheVerb(info.letters, ops[i]);
      assert MethodKey(info.letters, ops[i]) in paths[route];
    }
  }

  lemma RowOfOp(info: Info, ops: seq<Operation>, paths: Paths, i: nat)
    requires i < |ops| && Renderable(info, ops) && IsDocument(info, paths, ops)
    ensures Row(paths, RouteOf(ops[i]), MethodKey(info.letters, ops[i])) && Validate(info.letters, ops[i]) == None
  {
    var fs := AllFacts(info, ops);
    assert Sound(fs[i]) && fs[i] == FactsOf(info, ops[i], i);
  }

  lemma RoutesAreAtTheirPaths(d: Declaration, registry: P.Registry, a: Published)
    requires P.IsRouting(a.routes, d.consumed, registry)
    ensures forall path :: path in a.routes ==> a.routes[path].path == path
  {
  }

  /** What of the surface is no operation of this backend's own: the MCP route, under
      the policy declared for it, and the relayed routes, under any checked caller's. */
  predicate RestOf(d: Declaration, routes: map<string, P.Route>, o: Operation) {
    || (d.mcp.Some? && o.path == "/v1/" + d.id + "/mcp" && o.policy == d.mcp.value.policy)
    || (exists path :: path in routes && o.path == "/v1/" + d.id + path && o.policy == Some(Policy([], true))
          && o.streaming == routes[path].md.streamsAnswers)
  }

  lemma RelayIsOfTheRest(d: Declaration, registry: P.Registry, routes: map<string, P.Route>, o: Operation)
    requires P.Resolvable(d.consumed, registry) && P.IsRouting(routes, d.consumed, registry)
    requires Relays(o, AuthorityRoute(d.id), routes)
    ensures o.spelled == "post" && o.exclude && ServedRoute(o.path) == o.path && RestOf(d, routes, o)
  {
    var path :| path in routes && o == RelayedOperation(AuthorityRoute(d.id), routes[path]);
    assert P.Declared(d.consumed, routes[path], path, registry);
    ServedAsWritten(d, registry, routes, path);
  }

  lemma RestOfSurface(d: Declaration, registry: P.Registry, a: Published, i: nat)
    requires P.Resolvable(d.consumed, registry) && P.IsRouting(a.routes, d.consumed, registry)
    requires RelaysOf(a.relayed, AuthorityRoute(d.id), a.routes)
    requires |d.operations| <= i < |SurfaceOf(d, a.relayed)|
    ensures var o := SurfaceOf(d, a.relayed)[i];
            o.spelled == "post" && o.exclude && ServedRoute(o.path) == o.path && RestOf(d, a.routes, o)
  {
    var surface := SurfaceOf(d, a.relayed);
    if d.mcp.Some? && i == |d.operations| {
      ServedAsWritten(d, registry, a.routes, "");
    } else {
      var k := i - |surface| + |a.relayed|;
      assert surface[i] == a.relayed[k] && Relays(a.relayed[k], AuthorityRoute(d.id), a.routes);
      RelayIsOfTheRest(d, registry, a.routes, a.relayed[k]);
    }
  }

  lemma UnmarkedPost(info: Info, o: Operation, i: nat)
    requires LikeUnicode(info.letters) && o.exclude && o.spelled == "post"
    ensures MethodKey(info.letters, o) == "post" && EndpointOf(FactsOf(info, o, i), i).marked == None
  {
    assert Lower(info.letters, "post") == "post";
  }

  /** Their rows are POST, at those very paths, and never marked. */
  lemma RestOfTheRows(d: Declaration, registry: P.Registry, info: Info, a: Published, route: string, key: string)
    requires LikeUnicode(info.letters) && IsArtifact(d, registry, info, a) && Row(a.paths, route, key)
    requires a.paths[route][key].op >= |d.operations|
    ensures key == "post" && a.paths[route][key].marked == None
    ensures var i, surface := a.paths[route][key].op, SurfaceOf(d, a.relayed);
            i < |surface| && route == surface[i].path && RestOf(d, a.routes, surface[i])
  {
    var i := OpOfRow(info, SurfaceOf(d, a.relayed), a.paths, route, key);
    RestOfSurface(d, registry, a, i);
    UnmarkedPost(info, SurfaceOf(d, a.relayed)[i], i);
  }

  // --- when what is published can be served ---

  /** POST declared twice on one path, once spelled with a long s. */
  predicate TwoPosts(t: Table, ops: seq<Operation>) {
    exists i, j :: 0 <= i < |ops| && 0 <= j < |ops| && PostAgain(t, ops[i], ops[j])
  }

  predicate PostAgain(t: Table, a: Operation, b: Operation) {
    a.path == b.path && Verb(t, a) == Verb(t, b) == "POST" && LONG_S in Spelled(a) && LONG_S !in Spelled(b)
  }

  /** A declaration an artifact is published for is one the backend serves, unless
      it declares POST twice on one path in two spellings: the document keeps them
      apart by their lower case, and the table meets them in capitals. */
  lemma PublishedIsServableUnlessTwoPosts(d: Declaration, registry: P.Registry, info: Info, a: Published)
    requires LikeUnicode(info.letters) && IsArtifact(d, registry, info, a)
    ensures Servable(info.letters, d.operations) <==> !TwoPosts(info.letters, d.operations)
  {
    PrefixIsServable(info, d.operations, SurfaceOf(d, a.relayed));
  }

  lemma PrefixIsServable(info: Info, ops: seq<Operation>, surface: seq<Operation>)
    requires LikeUnicode(info.letters) && Renderable(info, surface) && ops <= surface
    ensures Servable(info.letters, ops) <==> !TwoPosts(info.letters, ops)
  {
    var t := info.letters;
    forall i | 0 <= i < |ops| ensures Validate(t, ops[i]) == None { IsValid(info, surface, i); }
    if !TwoPosts(t, ops) {
      forall i, j | 0 <= i < j < |ops| ensures !SameEntry(t, ops[i], ops[j]) {
        RowsApart(info, surface, i, j);
        assert !PostAgain(t, ops[i], ops[j]) && !PostAgain(t, ops[j], ops[i]);
        NotSameEntry(info, ops[i], ops[j]);
      }
    }
    if i, j :| 0 <= i < |ops| && 0 <= j < |ops| && PostAgain(t, ops[i], ops[j]) {
      assert i < j ==> SameEntry(t, ops[i], ops[j]);
      assert j < i ==> SameEntry(t, ops[j], ops[i]);
    }
  }

  lemma IsValid(info: Info, ops: seq<Operation>, i: nat)
    requires i < |ops| && Renderable(info, ops)
    ensures Validate(info.letters, ops[i]) == None
  {
    assert Sound(AllFacts(info, ops)[i]);
  }

  lemma RowsApart(info: Info, ops: seq<Operation>, i: nat, j: nat)
    requires i < j < |ops| && Renderable(info, ops)
    ensures !(RouteOf(ops[i]) == RouteOf(ops[j]) && MethodKey(info.letters, ops[i]) == MethodKey(info.letters, ops[j]))
  {
    var fs := AllFacts(info, ops);
    assert Apart(fs[i], fs[j]) && fs[i] == FactsOf(info, ops[i], i) && fs[j] == FactsOf(info, ops[j], j);
  }

  lemma NotSameEntry(info: Info, a: Operation, b: Operation)
    requires LikeUnicode(info.letters) && Validate(info.letters, a) == None && Validate(info.letters, b) == None
    requires !(RouteOf(a) == RouteOf(b) && MethodKey(info.letters, a) == MethodKey(info.letters, b))
    requires !PostAgain(info.letters, a, b) && !PostAgain(info.letters, b, a)
    ensures !SameEntry(info.letters, a, b)
  {
    if SameEntry(info.letters, a, b) { SpellingsOfAMethod(info.letters, a, b); }
  }

  const LONG_POST := ['p', 'o', LONG_S, 't']

  /** And the exception is real: for any such pair the document is rendered, and
      the table is refused. */
  lemma TwoPostsAreRendered(info: Info, o: Operation)
    requires LikeUnicode(info.letters) && Validate(info.letters, o) == None && o.spelled == "post" && o.tool == ""
    requires forall i, name :: info.marks(i, name) != MarkerError
    ensures var ops := [o, o.(spelled := LONG_POST)]; Renderable(info, ops) && !Servable(info.letters, ops)
  {
    var p := o.(spelled := LONG_POST);
    var ops := [o, p];
    KeysOfPosts(info.letters);
    PostIsPost(info.letters, o);
    assert Verb(info.letters, p) == "POST";
    RespelledIsValid(info.letters, o, LONG_POST);
    IdsOfPosts(info, RouteOf(o));
    assert SameEntry(info.letters, ops[0], ops[1]);
    TwoOfAKind(info, o, p);
  }

  lemma TwoOfAKind(info: Info, o: Operation, p: Operation)
    requires Validate(info.letters, o) == None && Validate(info.letters, p) == None
    requires MethodKey(info.letters, o) != MethodKey(info.letters, p) && IdOf(info, o) != IdOf(info, p) && o.tool == ""
    requires forall i, name :: info.marks(i, name) != MarkerError
    ensures Renderable(info, [o, p])
  {
    var fs := AllFacts(info, [o, p]);
    assert fs[0] == FactsOf(info, o, 0) && fs[1] == FactsOf(info, p, 1);
    assert Sound(fs[0]) && Sound(fs[1]) && Apart(fs[0], fs[1]);
  }

  lemma KeysOfPosts(t: Table)
    requires LikeUnicode(t)
    ensures Lower(t, "post") == "post" && Lower(t, LONG_POST) == LONG_POST && LONG_POST[2] != "post"[2]
  {
  }

  lemma IdsOfPosts(info: Info, route: string)
    requires LikeUnicode(info.letters)
    ensures OperationId(info.letters, info.prefix, "post", route) !=
              OperationId(info.letters, info.prefix, LONG_POST, route)
  {
    KeysOfPosts(info.letters);
    var head, rest := info.prefix + "_", JoinTitled(info.letters, T.Split(Trimmed(route), '/'));
    var one, other := Title(info.letters, "post"), Title(info.letters, LONG_POST);
    assert (head + one + rest)[|head| + 2] == "post"[2] && (head + other + rest)[|head| + 2] == LONG_POST[2];
  }
}
