/** Which of the published rows a request can reach, through the router the
    backend mounts its operations, its relayed routes and its MCP route on. */
module Serving {
  import opened Wrappers
  import T = Text
  import opened Casing
  import opened Operations
  import opened Interface
  import opened Artifact
  import opened Mux
  import P = Passthrough

  /** What the runtime mounts for every solution. */
  const WELL_KNOWN := {"solution.json", "capabilities", "module-contract"}
  const FIXED := (set name | name in WELL_KNOWN :: "/.well-known/" + name) + {"/health", "/assets/"}

  function Mount(id: string): string { AuthorityRoute(id) + P.PREFIX }

  /** The patterns that are no operation's own. */
  function Others(d: Declaration): set<string> {
    FIXED + (if d.consumed != [] then {Mount(d.id)} else {}) + (if d.mcp.Some? then {McpRoute(d.id)} else {})
  }

  function OpPaths(d: Declaration): set<string> {
    set o | o in d.operations :: o.path
  }

  function Patterns(d: Declaration): set<string> {
    Others(d) + OpPaths(d)
  }

  /** The paths something that is no operation is mounted at. */
  predicate MountedElsewhere(d: Declaration, path: string) {
    || path in {"/health", "/assets/", "/.well-known/solution.json", "/.well-known/capabilities",
                "/.well-known/module-contract"}
    || (d.consumed != [] && path == "/v1/" + d.id + "/modules/")
    || (d.mcp.Some? && path == "/v1/" + d.id + "/mcp")
  }

  /** Which those are, one by one. */
  lemma OthersAre(d: Declaration, path: string)
    ensures path in Others(d) <==> MountedElsewhere(d, path)
  {
    WellKnownPaths(path);
  }

  lemma WellKnownPaths(path: string)
    ensures (exists name :: name in WELL_KNOWN && path == "/.well-known/" + name) <==>
            path in {"/.well-known/solution.json", "/.well-known/capabilities", "/.well-known/module-contract"}
  {
    assert "/.well-known/" + "solution.json" == "/.well-known/solution.json";
    assert "/.well-known/" + "capabilities" == "/.well-known/capabilities";
    assert "/.well-known/" + "module-contract" == "/.well-known/module-contract";
    assert "solution.json" in WELL_KNOWN && "capabilities" in WELL_KNOWN && "module-contract" in WELL_KNOWN;
  }

  /** A declaration the process can start serving: its table is made, and both
      routers take their patterns, none of them twice. */
  ghost predicate Starts(lib: Library, t: Table, d: Declaration, routes: map<string, P.Route>) {
    && Servable(t, d.operations)
    && Registers(lib, Patterns(d)) && OpPaths(d) !! Others(d) && Registers(lib, routes.Keys)
  }

  /** The process can start with a declaration exactly when each operation can be
      declared, no two answer one method of one path, none is at a pattern something
      else is mounted at, and both routers take their patterns together. */
  lemma StartsIff(lib: Library, t: Table, d: Declaration, routes: map<string, P.Route>)
    ensures Starts(lib, t, d, routes) <==>
            && (forall i :: 0 <= i < |d.operations| ==> CanBeDeclared(t, d.operations[i]))
            && (forall i, j :: 0 <= i < j < |d.operations| ==>
                  d.operations[i].path != d.operations[j].path || Verb(t, d.operations[i]) != Verb(t, d.operations[j]))
            && (forall i :: 0 <= i < |d.operations| ==> !MountedElsewhere(d, d.operations[i].path))
            && Registers(lib, Patterns(d)) && Registers(lib, routes.Keys)
  {
    ServableIff(t, d.operations);
    forall path ensures path in Others(d) <==> MountedElsewhere(d, path) { OthersAre(d, path); }
    ApartIff(d);
  }

  lemma ServableIff(t: Table, ops: seq<Operation>)
    ensures Servable(t, ops) <==>
            && (forall i :: 0 <= i < |ops| ==> CanBeDeclared(t, ops[i]))
            && (forall i, j :: 0 <= i < j < |ops| ==> ops[i].path != ops[j].path || Verb(t, ops[i]) != Verb(t, ops[j]))
  {
    forall i | 0 <= i < |ops| ensures Validate(t, ops[i]) == None <==> CanBeDeclared(t, ops[i]) { ValidIff(t, ops[i]); }
  }

  lemma ApartIff(d: Declaration)
    ensures OpPaths(d) !! Others(d) <==>
            forall i :: 0 <= i < |d.operations| ==> d.operations[i].path !in Others(d)
  {
    forall i | 0 <= i < |d.operations| ensures d.operations[i].path in OpPaths(d) {
      assert d.operations[i] in d.operations;
    }
  }

  // --- the names in a path ---

  /** An id that is one path segment as it is written. */
  predicate PlainId(id: string) {
    P.OneSegment(id) && '%' !in id && ' ' !in id && '\t' !in id
  }

  /** Names and a last one, slashes between. */
  function Slashed(names: seq<string>, last: string): string {
    if names == [] then last else names[0] + ['/'] + Slashed(names[1..], last)
  }

  function Literals(lib: Library, names: seq<string>): seq<Seg> {
    seq(|names|, i requires 0 <= i < |names| => Lit(lib.decode(names[i])))
  }

  function NamesPattern(lib: Library, names: seq<string>, last: string): Pattern {
    if last == "" then Pattern(Literals(lib, names), Rest) else Pattern(Literals(lib, names + [last]), Exact)
  }

  predicate Literal(name: string) { '/' !in name && '{' !in name }

  lemma ReadOneName(lib: Library, name: string, more: seq<string>)
    requires Literal(name) && more != []
    ensures ReadParts(lib, [name] + more, {}) == Prepend(Lit(lib.decode(name)), ReadParts(lib, more, {}))
  {
    assert ([name] + more)[1..] == more;
  }

  lemma ReadLastName(lib: Library, last: string)
    requires Literal(last)
    ensures ReadParts(lib, [last], {}) == Some(NamesPattern(lib, [], last))
  {
    assert [last][1..] == [] && ReadParts(lib, [], {}) == Some(Pattern([], Exact));
    assert [] + [last] == [last] && Literals(lib, [last]) == [Lit(lib.decode(last))] + [];
    assert Literals(lib, []) == [];
  }

  lemma OneMoreName(lib: Library, names: seq<string>, last: string)
    requires names != []
    ensures NamesPattern(lib, names, last) ==
              Prepend(Lit(lib.decode(names[0])), Some(NamesPattern(lib, names[1..], last))).value
  {
    assert Literals(lib, names) == [Lit(lib.decode(names[0]))] + Literals(lib, names[1..]);
    assert (names + [last])[1..] == names[1..] + [last];
    assert Literals(lib, names + [last]) == [Lit(lib.decode(names[0]))] + Literals(lib, names[1..] + [last]);
  }

  /** Without braces a pattern is read name by name. */
  lemma {:induction false} ReadNames(lib: Library, names: seq<string>, last: string)
    requires Literal(last) && forall name :: name in names ==> Literal(name)
    ensures ReadParts(lib, T.Split(Slashed(names, last), '/'), {}) == Some(NamesPattern(lib, names, last))
  {
    if names == [] {
      T.SplitHead(last, "", '/');
      ReadLastName(lib, last);
    } else {
      assert names[0] in names;
      ReadNames(lib, names[1..], last);
      T.SplitHead(names[0], Slashed(names[1..], last), '/');
      ReadOneName(lib, names[0], T.Split(Slashed(names[1..], last), '/'));
      OneMoreName(lib, names, last);
    }
  }

  /** So a path spelled that way has the literal pattern of its names. */
  lemma ReadSlashed(lib: Library, path: string, names: seq<string>, last: string)
    requires path == ['/'] + Slashed(names, last)
    requires Literal(last) && forall name :: name in names ==> Literal(name)
    ensures Read(lib, path).Some? <==> ' ' !in path && '\t' !in path
    ensures Read(lib, path).Some? ==> Pat(lib, path) == NamesPattern(lib, names, last)
  {
    ReadNames(lib, names, last);
    assert path[1..] == Slashed(names, last);
  }

  lemma PlainSegment(id: string)
    requires P.OneSegment(id)
    ensures id != "" && Literal(id)
  {
    assert '/' in P.RESERVED && '{' in P.RESERVED;
  }

  lemma SlashedThree(a: string, b: string, c: string, last: string)
    ensures Slashed([a, b, c], last) == a + ['/'] + (b + ['/'] + (c + ['/'] + last))
    ensures Slashed([a, b], last) == a + ['/'] + (b + ['/'] + last)
  {
    assert [a, b, c][1..] == [b, c] && [b, c][1..] == [c] && [c][1..] == [];
    assert [a, b][1..] == [b] && [b][1..] == [];
    assert Slashed([], last) == last;
    assert Slashed([c], last) == c + ['/'] + last && Slashed([b], last) == b + ['/'] + last;
    assert Slashed([b, c], last) == b + ['/'] + (c + ['/'] + last);
  }

  lemma RoutesAreSlashed(id: string)
    ensures Mount(id) == ['/'] + Slashed(["v1", id, "modules"], "")
    ensures McpRoute(id) == ['/'] + Slashed(["v1", id], "mcp")
  {
    SlashedThree("v1", id, "modules", "");
    SlashedThree("v1", id, "", "mcp");
    assert "/v1/" == ['/'] + "v1" + ['/'] && "/modules/" == ['/'] + "modules" + ['/'] && "/mcp" == ['/'] + "mcp";
  }

  lemma NoBlanks(id: string)
    requires PlainId(id)
    ensures ' ' !in Mount(id) && '\t' !in Mount(id) && ' ' !in McpRoute(id) && '\t' !in McpRoute(id)
  {
    assert ' ' !in "/v1/" && '\t' !in "/v1/" && ' ' !in P.PREFIX && '\t' !in P.PREFIX;
    assert ' ' !in "/mcp" && '\t' !in "/mcp";
  }

  lemma FixedLiterals(lib: Library, id: string, last: string)
    requires LikeHttp(lib) && PlainId(id) && (last == "modules" || last == "mcp")
    ensures Literal("v1") && Literal(id) && Literal(last)
    ensures Literals(lib, ["v1", id, last]) == [Lit("v1"), Lit(id), Lit(last)]
  {
    PlainSegment(id);
    assert '%' !in "v1" && '%' !in "modules" && '%' !in "mcp";
  }

  lemma MountIs(lib: Library, id: string)
    requires LikeHttp(lib) && PlainId(id)
    ensures Read(lib, Mount(id)) == Some(Pattern([Lit("v1"), Lit(id), Lit("modules")], Rest))
  {
    RoutesAreSlashed(id);
    NoBlanks(id);
    FixedLiterals(lib, id, "modules");
    ReadSlashed(lib, Mount(id), ["v1", id, "modules"], "");
  }

  lemma McpIs(lib: Library, id: string)
    requires LikeHttp(lib) && PlainId(id)
    ensures Read(lib, McpRoute(id)) == Some(Pattern([Lit("v1"), Lit(id), Lit("mcp")], Exact))
  {
    RoutesAreSlashed(id);
    NoBlanks(id);
    FixedLiterals(lib, id, "mcp");
    ReadSlashed(lib, McpRoute(id), ["v1", id], "mcp");
    assert ["v1", id] + ["mcp"] == ["v1", id, "mcp"];
  }

  // --- a relayed route ---

  /** A path as it reads decoded, which is what a route is looked up by. */
  function Decoded(x: Path): string {
    Url(x.segs) + if x.slash then "/" else ""
  }

  function Url(segs: seq<string>): string {
    if segs == [] then "" else "/" + segs[0] + Url(segs[1..])
  }

  /** The path below the prefix the passthrough is mounted under: the id is one
      segment. */
  function Inner(x: Path): Path
    requires |x.segs| >= 2
  {
    Path(x.segs[2..], x.slash)
  }

  /** A request that comes to a relayed route: the outer router leaves it to the
      passthrough, its decoded path is the route's, and the inner router takes it
      there. */
  ghost predicate ComesTo(lib: Library, d: Declaration, routes: map<string, P.Route>, x: Path, path: string)
    requires Registers(lib, Patterns(d)) && Registers(lib, routes.Keys)
  {
    && Takes(lib, Patterns(d), Mount(d.id), x) && |x.segs| >= 2
    && path in routes && Decoded(x) == AuthorityRoute(d.id) + path
    && Takes(lib, routes.Keys, path, Inner(x))
  }

  /** The path a page calls a relayed route by. */
  function Wire(id: string, r: P.Route): Path {
    Path(["v1", id, "modules", r.provider.audience, r.md.service, r.md.name], false)
  }

  /** An operation's pattern that is mounted under the passthrough's prefix and
      matches the route's path, or matches it exactly with a slash after it, so that
      the router redirects the route's own path to it. */
  ghost predicate Shadows(lib: Library, d: Declaration, o: Operation, r: P.Route)
    requires Read(lib, o.path).Some? && Read(lib, Mount(d.id)).Some?
  {
    && Below(Pat(lib, o.path), Pat(lib, Mount(d.id)))
    && (Matches(Pat(lib, o.path), Wire(d.id, r)) || ExactWithSlash(Pat(lib, o.path), Wire(d.id, r)))
  }

  ghost predicate Shadowed(lib: Library, d: Declaration, r: P.Route)
    requires Registers(lib, Patterns(d)) && d.consumed != []
  {
    exists o :: o in d.operations && Shadows(lib, d, o, r)
  }

  // --- what the routers read the other patterns as ---

  ghost predicate NotOurs(lib: Library, path: string) {
    && Read(lib, path).Some?
    && var segs := Pat(lib, path).segs; segs != [] && segs[0].Lit? && segs[0].text != "v1"
  }

  lemma FixedIs(lib: Library, path: string)
    requires LikeHttp(lib) && path in FIXED
    ensures NotOurs(lib, path)
  {
    HealthIs(lib);
    AssetsIs(lib);
    if name :| name in WELL_KNOWN && path == "/.well-known/" + name {
      WellKnownIsPlain(name);
      WellKnownIs(lib, name);
    }
  }

  predicate PlainName(name: string) {
    Literal(name) && ' ' !in name && '\t' !in name && '%' !in name
  }

  lemma WellKnownIsPlain(name: string)
    requires name in WELL_KNOWN
    ensures PlainName(name)
  {
    assert PlainName("solution.json") && PlainName("capabilities") && PlainName("module-contract");
  }

  lemma WellKnownIs(lib: Library, last: string)
    requires LikeHttp(lib) && PlainName(last)
    ensures NotOurs(lib, "/.well-known/" + last)
  {
    assert "/.well-known/" == ['/'] + (".well-known" + ['/']);
    FixedNames(lib, "/.well-known/" + last, [".well-known"], last);
  }

  lemma HealthIs(lib: Library)
    requires LikeHttp(lib)
    ensures NotOurs(lib, "/health")
  {
    assert "/health" == ['/'] + "health";
    FixedNames(lib, "/health", [], "health");
  }

  lemma AssetsIs(lib: Library)
    requires LikeHttp(lib)
    ensures NotOurs(lib, "/assets/")
  {
    assert "/assets/" == ['/'] + ("assets" + ['/'] + "");
    FixedNames(lib, "/assets/", ["assets"], "");
  }

  lemma FixedNames(lib: Library, path: string, names: seq<string>, last: string)
    requires LikeHttp(lib) && |names| <= 1 && path == ['/'] + (if names == [] then last else names[0] + ['/'] + last)
    requires Literal(last) && forall name :: name in names ==> Literal(name)
    requires ' ' !in path && '\t' !in path && '%' !in path && (names + [last])[0] != ""
    ensures Read(lib, path).Some? && Pat(lib, path).segs != [] && Pat(lib, path).segs[0] == Lit((names + [last])[0])
  {
    assert names != [] ==> names[1..] == [] && Slashed(names[1..], last) == last;
    assert path == ['/'] + Slashed(names, last);
    ReadSlashed(lib, path, names, last);
    var first := (names + [last])[0];
    assert first == path[1..1 + |first|];
    assert '%' !in first;
  }

  function RoutePattern(lib: Library, r: P.Route): Pattern {
    Pattern([Lit("modules"), Lit(lib.decode(r.provider.audience)), Lit(r.md.service), Lit(r.md.name)], Exact)
  }

  /** A relayed route, as the inner router reads it. */
  lemma RouteIs(lib: Library, d: Declaration, registry: P.Registry, routes: map<string, P.Route>, path: string)
    requires LikeHttp(lib) && P.Resolvable(d.consumed, registry) && P.IsRouting(routes, d.consumed, registry)
    requires path in routes
    requires Read(lib, path).Some?
    ensures Pat(lib, path) == RoutePattern(lib, routes[path])
  {
    RouteIsPlain(d, registry, routes, path);
    NamedRouteIs(lib, routes[path], path);
  }

  lemma NamedRouteIs(lib: Library, r: P.Route, path: string)
    requires LikeHttp(lib) && path == P.PathOf(r.provider.audience, r.md) && Read(lib, path).Some?
    requires Literal(r.provider.audience) && Literal(r.md.service) && '%' !in r.md.service
    requires r.md.name != "" && Literal(r.md.name) && '%' !in r.md.name
    ensures Pat(lib, path) == RoutePattern(lib, r)
  {
    RouteIsSlashed(r.provider.audience, r.md);
    ReadThree(lib, path, "modules", r.provider.audience, r.md.service, r.md.name);
    FourLiterals(lib, r);
  }

  lemma ReadThree(lib: Library, path: string, a: string, b: string, c: string, last: string)
    requires path == ['/'] + Slashed([a, b, c], last) && Read(lib, path).Some?
    requires Literal(a) && Literal(b) && Literal(c) && Literal(last)
    ensures Pat(lib, path) == NamesPattern(lib, [a, b, c], last)
  {
    ReadSlashed(lib, path, [a, b, c], last);
  }

  lemma FourLiterals(lib: Library, r: P.Route)
    requires LikeHttp(lib) && '%' !in r.md.service && '%' !in r.md.name && r.md.name != ""
    ensures NamesPattern(lib, ["modules", r.provider.audience, r.md.service], r.md.name) == RoutePattern(lib, r)
  {
    assert '%' !in "modules";
    assert Literals(lib, ["modules", r.provider.audience, r.md.service] + [r.md.name]) == RoutePattern(lib, r).segs;
  }

  lemma RouteIsSlashed(audience: string, md: P.MethodDescriptor)
    ensures P.PathOf(audience, md) == ['/'] + Slashed(["modules", audience, md.service], md.name)
  {
    SlashedThree("modules", audience, md.service, md.name);
    assert P.PREFIX == ['/'] + "modules" + ['/'];
    assert P.PathOf(audience, md) == P.PREFIX + (audience + ['/'] + (md.service + ['/'] + md.name));
  }

  lemma RouteIsPlain(d: Declaration, registry: P.Registry, routes: map<string, P.Route>, path: string)
    requires P.Resolvable(d.consumed, registry) && P.IsRouting(routes, d.consumed, registry) && path in routes
    ensures var r := routes[path];
      && path == r.path == P.PathOf(r.provider.audience, r.md) && d.consumed != []
      && r.provider.audience != "" && Literal(r.provider.audience)
      && r.md.service != "" && Literal(r.md.service) && '%' !in r.md.service
      && r.md.name != "" && Literal(r.md.name) && '%' !in r.md.name
  {
    var r := routes[path];
    assert P.Declared(d.consumed, r, path, registry) && P.Servable(r.provider, registry);
    PlainSegment(r.provider.audience);
    P.LookupIsPlain(registry, r.rpc.name, r.md);
    assert '/' in P.RESERVED && '{' in P.RESERVED;
  }

  /** Within a literal subtree is under it, segment by segment. */
  lemma WithinIsBelow(q: Pattern, m: Pattern)
    requires Within(q, m) && m.end == Rest && forall seg :: seg in m.segs ==> seg.Lit?
    ensures Below(q, m)
  {
    var f := LongerThan(SegTexts(m.segs));
    var slash := q.end != Exact;
    FilledIsMatched(q, f, 0, slash);
    var y := Path(Filled(q.segs, f, 0), slash);
    assert Matches(m, y);
    forall i | 0 <= i < |m.segs| ensures SegWithin(q.segs[i], m.segs[i]) {
      assert m.segs[i] in m.segs && m.segs[i].text in SegTexts(m.segs);
      assert SegMatches(m.segs[i], y.segs[i]);
    }
  }

  // --- a relayed route is reached, or shadowed ---

  /** What the declaration and its routes are taken to be. */
  ghost predicate Given(lib: Library, d: Declaration, registry: P.Registry, routes: map<string, P.Route>) {
    && LikeHttp(lib) && PlainId(d.id) && P.Resolvable(d.consumed, registry) && P.IsRouting(routes, d.consumed, registry)
  }

  lemma UrlOfSix(a: string, b: string, c: string, e: string, f: string, g: string)
    ensures Url([a, b, c, e, f, g]) == "/" + a + ("/" + b + ("/" + c + ("/" + e + ("/" + f + ("/" + g)))))
  {
    var x := [a, b, c, e, f, g];
    assert x[1..] == [b, c, e, f, g] && x[1..][1..] == [c, e, f, g] && x[1..][1..][1..] == [e, f, g];
    assert [e, f, g][1..] == [f, g] && [f, g][1..] == [g] && [g][1..] == [];
    assert Url([]) == "" && Url([g]) == "/" + g && Url([f, g]) == "/" + f + ("/" + g);
    assert Url([e, f, g]) == "/" + e + ("/" + f + ("/" + g));
    assert Url([c, e, f, g]) == "/" + c + ("/" + e + ("/" + f + ("/" + g)));
    assert Url([b, c, e, f, g]) == "/" + b + ("/" + c + ("/" + e + ("/" + f + ("/" + g))));
  }

  /** A relayed route's decoded path, with its module's name as given. */
  lemma WireIsDecoded(id: string, audience: string, md: P.MethodDescriptor)
    ensures Url(["v1", id, "modules", audience, md.service, md.name]) == AuthorityRoute(id) + P.PathOf(audience, md)
  {
    UrlOfSix("v1", id, "modules", audience, md.service, md.name);
    assert "/v1/" == "/" + "v1" + "/" && P.PREFIX == "/" + "modules" + "/";
  }

  /** A decoded path that is the route's spells the module's name as it is. */
  lemma SameAudience(id: string, one: string, other: string, md: P.MethodDescriptor)
    requires AuthorityRoute(id) + P.PathOf(one, md) == AuthorityRoute(id) + P.PathOf(other, md)
    ensures one == other
  {
    var head, tail := AuthorityRoute(id) + P.PREFIX, "/" + md.service + "/" + md.name;
    var a, b := head + one + tail, head + other + tail;
    assert AuthorityRoute(id) + P.PathOf(one, md) == a && AuthorityRoute(id) + P.PathOf(other, md) == b;
    assert |one| == |other|;
    assert one == a[|head|..|head| + |one|] && other == b[|head|..|head| + |other|];
  }

  /** Only the route's own path comes to it, and only if its module's name reads as
      it is written. */
  lemma ComesByTheWire(
      lib: Library, d: Declaration, registry: P.Registry, routes: map<string, P.Route>, x: Path, path: string)
    requires Given(lib, d, registry, routes) && Registers(lib, Patterns(d)) && Registers(lib, routes.Keys)
    requires ComesTo(lib, d, routes, x, path)
    ensures lib.decode(routes[path].provider.audience) == routes[path].provider.audience
    ensures x == Wire(d.id, routes[path])
  {
    var r := routes[path];
    RouteIsPlain(d, registry, routes, path);
    RouteIs(lib, d, registry, routes, path);
    MountIs(lib, d.id);
    var read := lib.decode(r.provider.audience);
    ByTheWire(lib, d.id, r, x);
    WireIsDecoded(d.id, read, r.md);
    SameAudience(d.id, read, r.provider.audience, r.md);
  }

  lemma ByTheWire(lib: Library, id: string, r: P.Route, x: Path)
    requires Matches(Pattern([Lit("v1"), Lit(id), Lit("modules")], Rest), x) && Matches(RoutePattern(lib, r), Inner(x))
    ensures x == Path(["v1", id, "modules", lib.decode(r.provider.audience), r.md.service, r.md.name], false)
  {
    var outer := [Lit("v1"), Lit(id), Lit("modules")];
    assert SegMatches(outer[0], x.segs[0]) && SegMatches(outer[1], x.segs[1]);
    var inner := RoutePattern(lib, r).segs;
    assert SegMatches(inner[0], x.segs[2..][0]) && SegMatches(inner[1], x.segs[2..][1]);
    assert SegMatches(inner[2], x.segs[2..][2]) && SegMatches(inner[3], x.segs[2..][3]);
    assert x.segs == ["v1", id, "modules", lib.decode(r.provider.audience), r.md.service, r.md.name];
  }

  lemma ShadowedIsNotReached(
      lib: Library, d: Declaration, registry: P.Registry, routes: map<string, P.Route>, x: Path, path: string)
    requires Given(lib, d, registry, routes) && Registers(lib, Patterns(d)) && Registers(lib, routes.Keys)
    requires OpPaths(d) !! Others(d) && d.consumed != []
    requires ComesTo(lib, d, routes, x, path)
    ensures !Shadowed(lib, d, routes[path])
  {
    ComesByTheWire(lib, d, registry, routes, x, path);
    forall o | o in d.operations ensures !Shadows(lib, d, o, routes[path]) {
      ShadowTakesIt(lib, d, o, routes[path]);
    }
  }

  /** What an operation is declared over is not the passthrough's. */
  lemma ShadowTakesIt(lib: Library, d: Declaration, o: Operation, r: P.Route)
    requires Registers(lib, Patterns(d)) && OpPaths(d) !! Others(d) && d.consumed != [] && o in d.operations
    ensures Shadows(lib, d, o, r) ==> !Takes(lib, Patterns(d), Mount(d.id), Wire(d.id, r))
  {
    assert o.path in OpPaths(d) && o.path in Patterns(d) && Mount(d.id) in Others(d) && Mount(d.id) in Patterns(d);
    assert Mount(d.id)[|Mount(d.id)| - 1] == '/';
    SlashIsRest(lib, Mount(d.id));
    if Below(Pat(lib, o.path), Pat(lib, Mount(d.id))) { BelowIsWithin(Pat(lib, o.path), Pat(lib, Mount(d.id))); }
  }

  /** With no operation in the way the router leaves a route's path to the
      passthrough. */
  lemma MountTakesTheWire(lib: Library, d: Declaration, r: P.Route)
    requires LikeHttp(lib) && PlainId(d.id) && Registers(lib, Patterns(d)) && d.consumed != [] && !Shadowed(lib, d, r)
    ensures Takes(lib, Patterns(d), Mount(d.id), Wire(d.id, r))
  {
    MountIs(lib, d.id);
    var x := Wire(d.id, r);
    assert Mount(d.id) in Others(d);
    MountMatchesTheWire(d.id, r);
    forall q | q in Patterns(d) ensures !ExactWithSlash(Pat(lib, q), x) { NothingWithSlash(lib, d, r, q); }
    forall q | q in Patterns(d) && q != Mount(d.id) && Matches(Pat(lib, q), x)
      ensures MoreSpecific(Pat(lib, Mount(d.id)), Pat(lib, q))
    {
      WiderThanTheMount(lib, d, r, q);
    }
  }

  /** A pattern for the route's path with a slash after it lies under the prefix. */
  lemma WithSlashIsBelow(id: string, r: P.Route, mount: Pattern, pat: Pattern)
    requires mount == Pattern([Lit("v1"), Lit(id), Lit("modules")], Rest)
    requires ExactWithSlash(pat, Wire(id, r)) && !Conflict(pat, mount)
    ensures Below(pat, mount)
  {
    var y := Path(Wire(id, r).segs, true);
    var short := Path(["v1", id, "modules"], true);
    assert Matches(mount, y) && Matches(pat, y);
    assert Matches(mount, short) && !Matches(pat, short);
    WithinIsBelow(pat, mount);
  }

  /** And is an operation's. */
  lemma NothingWithSlash(lib: Library, d: Declaration, r: P.Route, q: string)
    requires LikeHttp(lib) && PlainId(d.id) && Registers(lib, Patterns(d)) && d.consumed != [] && !Shadowed(lib, d, r)
    requires q in Patterns(d)
    ensures !ExactWithSlash(Pat(lib, q), Wire(d.id, r))
  {
    if ExactWithSlash(Pat(lib, q), Wire(d.id, r)) { WithSlashShadows(lib, d, r, q); }
  }

  lemma WithSlashShadows(lib: Library, d: Declaration, r: P.Route, q: string)
    requires LikeHttp(lib) && PlainId(d.id) && Registers(lib, Patterns(d)) && d.consumed != []
    requires q in Patterns(d) && ExactWithSlash(Pat(lib, q), Wire(d.id, r))
    ensures Shadowed(lib, d, r)
  {
    MountIs(lib, d.id);
    assert Mount(d.id) in Others(d) && q != Mount(d.id);
    WithSlashIsBelow(d.id, r, Pat(lib, Mount(d.id)), Pat(lib, q));
    OthersAreElsewhere(lib, d, q, Path(Wire(d.id, r).segs, true));
    SlashedShadows(lib, d, r, q);
  }

  lemma SlashedShadows(lib: Library, d: Declaration, r: P.Route, q: string)
    requires Registers(lib, Patterns(d)) && d.consumed != [] && q in OpPaths(d)
    requires Below(Pat(lib, q), Pat(lib, Mount(d.id))) && ExactWithSlash(Pat(lib, q), Wire(d.id, r))
    ensures Shadowed(lib, d, r)
  {
    var o :| o in d.operations && o.path == q;
    assert Shadows(lib, d, o, r);
  }

  lemma MountMatchesTheWire(id: string, r: P.Route)
    ensures Matches(Pattern([Lit("v1"), Lit(id), Lit("modules")], Rest), Wire(id, r))
  {
  }

  lemma WiderThanTheMount(lib: Library, d: Declaration, r: P.Route, q: string)
    requires LikeHttp(lib) && PlainId(d.id) && Registers(lib, Patterns(d)) && d.consumed != [] && !Shadowed(lib, d, r)
    requires q in Patterns(d) && q != Mount(d.id) && Matches(Pat(lib, q), Wire(d.id, r))
    ensures MoreSpecific(Pat(lib, Mount(d.id)), Pat(lib, q))
  {
    MountIs(lib, d.id);
    assert Mount(d.id) in Others(d);
    MountMatchesTheWire(d.id, r);
    OneIsWider(Pat(lib, Mount(d.id)), Pat(lib, q), Wire(d.id, r));
    if MoreSpecific(Pat(lib, q), Pat(lib, Mount(d.id))) { UnderTheMountShadows(lib, d, r, q); }
  }

  lemma UnderTheMountShadows(lib: Library, d: Declaration, r: P.Route, q: string)
    requires LikeHttp(lib) && PlainId(d.id) && Registers(lib, Patterns(d)) && d.consumed != [] && q in Patterns(d)
    requires q != Mount(d.id) && Matches(Pat(lib, q), Wire(d.id, r)) && Within(Pat(lib, q), Pat(lib, Mount(d.id)))
    ensures Shadowed(lib, d, r)
  {
    MountIs(lib, d.id);
    WithinIsBelow(Pat(lib, q), Pat(lib, Mount(d.id)));
    OthersAreElsewhere(lib, d, q, Wire(d.id, r));
    var o :| o in d.operations && o.path == q;
    assert Shadows(lib, d, o, r);
  }

  lemma OthersAreElsewhere(lib: Library, d: Declaration, q: string, x: Path)
    requires LikeHttp(lib) && PlainId(d.id) && q in Patterns(d) && q != Mount(d.id)
    requires Read(lib, q).Some? && |x.segs| == 6 && x.segs[0] == "v1" && Matches(Pat(lib, q), x)
    ensures q in OpPaths(d)
  {
    assert Pat(lib, q).segs != [] ==> SegMatches(Pat(lib, q).segs[0], x.segs[0]);
    if q in FIXED { FixedIs(lib, q); }
    if q == McpRoute(d.id) { McpIs(lib, d.id); }
  }

  /** Between routes of one prefix the router never has to choose. */
  lemma RoutesMatchAlike(lib: Library, one: P.Route, other: P.Route, x: Path)
    requires Matches(RoutePattern(lib, one), x) && Matches(RoutePattern(lib, other), x)
    ensures RoutePattern(lib, one) == RoutePattern(lib, other)
  {
    var a, b := RoutePattern(lib, one).segs, RoutePattern(lib, other).segs;
    forall i | 0 <= i < 4 ensures a[i] == b[i] { assert SegMatches(a[i], x.segs[i]) && SegMatches(b[i], x.segs[i]); }
  }

  lemma RouteTakesTheWire(lib: Library, id: string, routes: map<string, P.Route>, path: string)
    requires Registers(lib, routes.Keys) && path in routes
    requires forall q :: q in routes ==> Pat(lib, q) == RoutePattern(lib, routes[q])
    requires lib.decode(routes[path].provider.audience) == routes[path].provider.audience
    ensures Takes(lib, routes.Keys, path, Inner(Wire(id, routes[path])))
  {
    var x := Inner(Wire(id, routes[path]));
    assert Matches(RoutePattern(lib, routes[path]), x);
    forall q | q in routes.Keys && q != path && Matches(Pat(lib, q), x)
      ensures MoreSpecific(Pat(lib, path), Pat(lib, q))
    {
      RoutesMatchAlike(lib, routes[path], routes[q], x);
      assert !Conflict(Pat(lib, path), Pat(lib, q));
    }
  }

  lemma RoutesAre(lib: Library, d: Declaration, registry: P.Registry, routes: map<string, P.Route>)
    requires Given(lib, d, registry, routes) && Registers(lib, routes.Keys)
    ensures forall q :: q in routes ==> Pat(lib, q) == RoutePattern(lib, routes[q])
  {
    forall q | q in routes ensures Pat(lib, q) == RoutePattern(lib, routes[q]) { RouteIs(lib, d, registry, routes, q); }
  }

  lemma WireComes(lib: Library, d: Declaration, registry: P.Registry, routes: map<string, P.Route>, path: string)
    requires Given(lib, d, registry, routes) && path in routes && d.consumed != []
    requires Registers(lib, Patterns(d)) && Registers(lib, routes.Keys)
    requires lib.decode(routes[path].provider.audience) == routes[path].provider.audience
    requires !Shadowed(lib, d, routes[path])
    ensures Clean(Wire(d.id, routes[path])) && ComesTo(lib, d, routes, Wire(d.id, routes[path]), path)
  {
    MountTakesTheWire(lib, d, routes[path]);
    RoutesAre(lib, d, registry, routes);
    RouteTakesTheWire(lib, d.id, routes, path);
    WireIsRead(d, registry, routes, path);
  }

  lemma WireIsRead(d: Declaration, registry: P.Registry, routes: map<string, P.Route>, path: string)
    requires PlainId(d.id) && P.Resolvable(d.consumed, registry) && P.IsRouting(routes, d.consumed, registry)
    requires path in routes
    ensures Clean(Wire(d.id, routes[path])) && Decoded(Wire(d.id, routes[path])) == AuthorityRoute(d.id) + path
  {
    RouteIsPlain(d, registry, routes, path);
    WireIsDecoded(d.id, routes[path].provider.audience, routes[path].md);
    PlainSegment(d.id);
  }

  /** A relayed route is reached by some request exactly when its module's name
      reads as it is written and no operation's pattern under the passthrough's
      prefix matches its path, or exactly its path with a slash after it. */
  lemma RelayReachedIff(lib: Library, d: Declaration, registry: P.Registry, routes: map<string, P.Route>, path: string)
    requires Given(lib, d, registry, routes) && path in routes && d.consumed != []
    requires Registers(lib, Patterns(d)) && Registers(lib, routes.Keys) && OpPaths(d) !! Others(d)
    ensures (exists x :: Clean(x) && ComesTo(lib, d, routes, x, path)) <==>
              && lib.decode(routes[path].provider.audience) == routes[path].provider.audience
              && !Shadowed(lib, d, routes[path])
  {
    if x :| Clean(x) && ComesTo(lib, d, routes, x, path) {
      ComesByTheWire(lib, d, registry, routes, x, path);
      ShadowedIsNotReached(lib, d, registry, routes, x, path);
    }
    if lib.decode(routes[path].provider.audience) == routes[path].provider.audience && !Shadowed(lib, d, routes[path]) {
      WireComes(lib, d, registry, routes, path);
    }
  }

  // --- every published row, or which are not served ---

  /** The i-th of the surface is reached by some request: an operation or the MCP
      route by its pattern, a relayed route through the passthrough. */
  ghost predicate SurfaceReached(lib: Library, d: Declaration, a: Published, i: nat)
    requires Registers(lib, Patterns(d)) && Registers(lib, a.routes.Keys) && i < |SurfaceOf(d, a.relayed)|
  {
    var path := SurfaceOf(d, a.relayed)[i].path;
    if i < |SurfaceOf(d, [])| then Reached(lib, Patterns(d), path)
    else
      exists route ::
        route in a.routes && path == AuthorityRoute(d.id) + route && RelayReached(lib, d, a.routes, route)
  }

  ghost predicate RelayReached(lib: Library, d: Declaration, routes: map<string, P.Route>, path: string)
    requires Registers(lib, Patterns(d)) && Registers(lib, routes.Keys)
  {
    exists x :: Clean(x) && ComesTo(lib, d, routes, x, path)
  }

  /** Each row of the document is served. */
  ghost predicate EveryRowServed(lib: Library, info: Info, d: Declaration, a: Published) {
    && Starts(lib, info.letters, d, a.routes)
    && forall route, key :: Row(a.paths, route, key) ==> RowServed(lib, d, a, a.paths[route][key].op)
  }

  ghost predicate RowServed(lib: Library, d: Declaration, a: Published, i: int)
    requires Registers(lib, Patterns(d)) && Registers(lib, a.routes.Keys)
  {
    0 <= i < |SurfaceOf(d, a.relayed)| && SurfaceReached(lib, d, a, i)
  }

  /** What is to be checked of an operation: no empty segment, and no subtree that
      other operations' patterns use up. */
  ghost predicate OpInTheOpen(lib: Library, d: Declaration, o: Operation)
    requires Registers(lib, Patterns(d)) && o in d.operations
  {
    assert o.path in OpPaths(d);
    Lit("") !in Pat(lib, o.path).segs && !Exhausted(lib, Patterns(d), Pat(lib, o.path))
  }

  /** And of a relayed route: its module's name is not percent-encoded, and no
      operation is declared over it. */
  ghost predicate RelayInTheOpen(lib: Library, d: Declaration, r: P.Route)
    requires Registers(lib, Patterns(d)) && d.consumed != []
  {
    lib.decode(r.provider.audience) == r.provider.audience && !Shadowed(lib, d, r)
  }

  ghost predicate AllInTheOpen(lib: Library, d: Declaration, routes: map<string, P.Route>)
    requires Registers(lib, Patterns(d))
  {
    && (forall o :: o in d.operations ==> OpInTheOpen(lib, d, o))
    && (forall path :: path in routes ==> d.consumed != [] && RelayInTheOpen(lib, d, routes[path]))
  }

  lemma McpIsReached(lib: Library, d: Declaration)
    requires LikeHttp(lib) && PlainId(d.id) && d.mcp.Some? && Registers(lib, Patterns(d))
    ensures Reached(lib, Patterns(d), McpRoute(d.id))
  {
    assert McpRoute(d.id) in Others(d);
    McpIs(lib, d.id);
    PlainSegment(d.id);
    ReachedIff(lib, Patterns(d), McpRoute(d.id));
  }

  lemma OpReachedIff(lib: Library, d: Declaration, o: Operation)
    requires Registers(lib, Patterns(d)) && o in d.operations
    ensures Reached(lib, Patterns(d), o.path) <==> OpInTheOpen(lib, d, o)
  {
    assert o.path in OpPaths(d);
    ReachedIff(lib, Patterns(d), o.path);
  }

  lemma SomeRoute(d: Declaration, registry: P.Registry, routes: map<string, P.Route>)
    requires P.IsRouting(routes, d.consumed, registry)
    ensures routes != map[] ==> d.consumed != []
  {
    if path :| path in routes { assert P.Declared(d.consumed, routes[path], path, registry); }
  }

  /** The i-th of the surface, when it is a relayed route, is one route only. */
  lemma RelayOfSurface(d: Declaration, registry: P.Registry, a: Published, i: nat) returns (path: string)
    requires RelaysOf(a.relayed, AuthorityRoute(d.id), a.routes) && P.IsRouting(a.routes, d.consumed, registry)
    requires |SurfaceOf(d, [])| <= i < |SurfaceOf(d, a.relayed)|
    ensures path in a.routes && SurfaceOf(d, a.relayed)[i].path == AuthorityRoute(d.id) + path
  {
    var k := i - |SurfaceOf(d, [])|;
    assert SurfaceOf(d, a.relayed)[i] == a.relayed[k] && Artifact.Relays(a.relayed[k], AuthorityRoute(d.id), a.routes);
    path :| path in a.routes && a.relayed[k] == RelayedOperation(AuthorityRoute(d.id), a.routes[path]);
    assert P.Declared(d.consumed, a.routes[path], path, registry);
  }

  lemma SamePath(id: string, one: string, other: string)
    requires AuthorityRoute(id) + one == AuthorityRoute(id) + other
    ensures one == other
  {
    assert one == (AuthorityRoute(id) + one)[|AuthorityRoute(id)|..];
    assert other == (AuthorityRoute(id) + other)[|AuthorityRoute(id)|..];
  }

  lemma OpRowReachedIff(lib: Library, d: Declaration, a: Published, i: nat)
    requires Registers(lib, Patterns(d)) && Registers(lib, a.routes.Keys) && i < |d.operations|
    ensures SurfaceReached(lib, d, a, i) <==> OpInTheOpen(lib, d, d.operations[i])
  {
    OpReachedIff(lib, d, d.operations[i]);
  }

  lemma McpRowReached(lib: Library, d: Declaration, a: Published, i: nat)
    requires LikeHttp(lib) && PlainId(d.id) && Registers(lib, Patterns(d)) && Registers(lib, a.routes.Keys)
    requires |d.operations| <= i < |SurfaceOf(d, [])|
    ensures SurfaceReached(lib, d, a, i)
  {
    McpIsReached(lib, d);
  }

  lemma RelayRowReachedIff(lib: Library, d: Declaration, registry: P.Registry, a: Published, i: nat, path: string)
    requires Given(lib, d, registry, a.routes) && d.consumed != []
    requires Registers(lib, Patterns(d)) && Registers(lib, a.routes.Keys) && OpPaths(d) !! Others(d)
    requires |SurfaceOf(d, [])| <= i < |SurfaceOf(d, a.relayed)|
    requires path in a.routes && SurfaceOf(d, a.relayed)[i].path == AuthorityRoute(d.id) + path
    ensures SurfaceReached(lib, d, a, i) <==> RelayInTheOpen(lib, d, a.routes[path])
  {
    RelayReachedIff(lib, d, registry, a.routes, path);
    assert RelayReached(lib, d, a.routes, path) <==> RelayInTheOpen(lib, d, a.routes[path]);
    if SurfaceReached(lib, d, a, i) {
      var route :| route in a.routes && SurfaceOf(d, a.relayed)[i].path == AuthorityRoute(d.id) + route
                   && RelayReached(lib, d, a.routes, route);
      SamePath(d.id, route, path);
    }
  }

  /** All of the surface is reached exactly when all of it is in the open. */
  ghost predicate AllReached(lib: Library, d: Declaration, a: Published)
    requires Registers(lib, Patterns(d)) && Registers(lib, a.routes.Keys)
  {
    forall i: nat :: i < |SurfaceOf(d, a.relayed)| ==> SurfaceReached(lib, d, a, i)
  }

  lemma AllReachedIff(lib: Library, d: Declaration, registry: P.Registry, a: Published)
    requires Given(lib, d, registry, a.routes) && RelaysOf(a.relayed, AuthorityRoute(d.id), a.routes)
    requires Registers(lib, Patterns(d)) && Registers(lib, a.routes.Keys) && OpPaths(d) !! Others(d)
    requires a.routes != map[] ==> d.consumed != []
    ensures AllReached(lib, d, a) <==> AllInTheOpen(lib, d, a.routes)
  {
    if AllReached(lib, d, a) {
      forall o | o in d.operations ensures OpInTheOpen(lib, d, o) { ReachedOpIsInTheOpen(lib, d, a, o); }
      forall path | path in a.routes ensures RelayInTheOpen(lib, d, a.routes[path]) {
        ReachedRelayIsInTheOpen(lib, d, registry, a, path);
      }
    }
    if AllInTheOpen(lib, d, a.routes) {
      forall i: nat | i < |SurfaceOf(d, a.relayed)| ensures SurfaceReached(lib, d, a, i) {
        InTheOpenIsReached(lib, d, registry, a, i);
      }
    }
  }

  lemma ReachedOpIsInTheOpen(lib: Library, d: Declaration, a: Published, o: Operation)
    requires Registers(lib, Patterns(d)) && Registers(lib, a.routes.Keys) && AllReached(lib, d, a) && o in d.operations
    ensures OpInTheOpen(lib, d, o)
  {
    var i :| 0 <= i < |d.operations| && d.operations[i] == o;
    OpRowReachedIff(lib, d, a, i);
  }

  lemma ReachedRelayIsInTheOpen(lib: Library, d: Declaration, registry: P.Registry, a: Published, path: string)
    requires Given(lib, d, registry, a.routes) && RelaysOf(a.relayed, AuthorityRoute(d.id), a.routes)
    requires Registers(lib, Patterns(d)) && Registers(lib, a.routes.Keys) && OpPaths(d) !! Others(d)
    requires AllReached(lib, d, a) && path in a.routes && d.consumed != []
    ensures RelayInTheOpen(lib, d, a.routes[path])
  {
    var i := RelayInSurface(d, a, path);
    RoutesAreAtTheirPaths(d, registry, a);
    RelayRowReachedIff(lib, d, registry, a, i, path);
  }

  lemma InTheOpenIsReached(lib: Library, d: Declaration, registry: P.Registry, a: Published, i: nat)
    requires Given(lib, d, registry, a.routes) && RelaysOf(a.relayed, AuthorityRoute(d.id), a.routes)
    requires Registers(lib, Patterns(d)) && Registers(lib, a.routes.Keys) && OpPaths(d) !! Others(d)
    requires (a.routes != map[] ==> d.consumed != []) && AllInTheOpen(lib, d, a.routes) && i < |SurfaceOf(d, a.relayed)|
    ensures SurfaceReached(lib, d, a, i)
  {
    if i < |d.operations| {
      assert d.operations[i] in d.operations;
      OpRowReachedIff(lib, d, a, i);
    } else if i < |SurfaceOf(d, [])| {
      McpRowReached(lib, d, a, i);
    } else {
      var path := RelayOfSurface(d, registry, a, i);
      RelayRowReachedIff(lib, d, registry, a, i, path);
    }
  }

  lemma RowsAreAll(lib: Library, info: Info, d: Declaration, a: Published)
    requires Registers(lib, Patterns(d)) && Registers(lib, a.routes.Keys)
    requires Renderable(info, SurfaceOf(d, a.relayed)) && IsDocument(info, a.paths, SurfaceOf(d, a.relayed))
    ensures AllReached(lib, d, a) <==>
            forall route, key :: Row(a.paths, route, key) ==> RowServed(lib, d, a, a.paths[route][key].op)
  {
    var surface := SurfaceOf(d, a.relayed);
    if forall route, key :: Row(a.paths, route, key) ==> RowServed(lib, d, a, a.paths[route][key].op) {
      forall i: nat | i < |surface| ensures SurfaceReached(lib, d, a, i) {
        RowOfIndex(info, surface, a.paths, i);
      }
    }
    if AllReached(lib, d, a) {
      forall route, key | Row(a.paths, route, key) ensures RowServed(lib, d, a, a.paths[route][key].op) {
        var i := OpOfRow(info, surface, a.paths, route, key);
      }
    }
  }

  /** Each of the surface has a row of its own. */
  lemma RowOfIndex(info: Info, ops: seq<Operation>, paths: Paths, i: nat)
    requires i < |ops| && Renderable(info, ops) && IsDocument(info, paths, ops)
    ensures Row(paths, RouteOf(ops[i]), MethodKey(info.letters, ops[i]))
    ensures paths[RouteOf(ops[i])][MethodKey(info.letters, ops[i])].op == i
  {
    RowOfOp(info, ops, paths, i);
    var j := OpOfRow(info, ops, paths, RouteOf(ops[i]), MethodKey(info.letters, ops[i]));
    if i < j { RowsApart(info, ops, i, j); }
    if j < i { RowsApart(info, ops, j, i); }
  }

  /** Published is served, for every declaration: each row of a published artifact
      is reached by some request exactly when the process can start with it, no
      operation's path has an empty segment or is a subtree other operations use
      up, and no relayed route is percent-encoded or declared over. */
  lemma EveryPublishedRowIsServedIff(lib: Library, d: Declaration, registry: P.Registry, info: Info, a: Published)
    requires LikeHttp(lib) && PlainId(d.id) && IsArtifact(d, registry, info, a)
    ensures EveryRowServed(lib, info, d, a) <==>
            Starts(lib, info.letters, d, a.routes) && AllInTheOpen(lib, d, a.routes)
  {
    SomeRoute(d, registry, a.routes);
    if Starts(lib, info.letters, d, a.routes) {
      AllReachedIff(lib, d, registry, a);
      RowsAreAll(lib, info, d, a);
    }
  }

  /** An operation declared at a relayed route's own path is over it, whatever its
      method: the router takes every request for the path to the operation. */
  lemma DeclaredOver(
      lib: Library, d: Declaration, registry: P.Registry, routes: map<string, P.Route>, path: string, o: Operation)
    requires Given(lib, d, registry, routes) && path in routes && d.consumed != []
    requires Registers(lib, Patterns(d)) && Registers(lib, routes.Keys) && OpPaths(d) !! Others(d)
    requires o in d.operations && o.path == AuthorityRoute(d.id) + path
    requires lib.decode(routes[path].provider.audience) == routes[path].provider.audience
    ensures Shadowed(lib, d, routes[path]) && !RelayReached(lib, d, routes, path)
  {
    RouteIsPlain(d, registry, routes, path);
    OwnPathShadows(lib, d, routes[path], o);
    RelayReachedIff(lib, d, registry, routes, path);
  }

  lemma OwnPathShadows(lib: Library, d: Declaration, r: P.Route, o: Operation)
    requires LikeHttp(lib) && PlainId(d.id) && Registers(lib, Patterns(d)) && d.consumed != []
    requires o in d.operations && o.path == AuthorityRoute(d.id) + r.path && PlainRoute(lib, r)
    ensures Shadowed(lib, d, r)
  {
    assert o.path in OpPaths(d) && Mount(d.id) in Others(d);
    OwnPathIs(lib, d.id, r);
    MountIs(lib, d.id);
    OwnPatternIsOver(d.id, r);
    assert Shadows(lib, d, o, r);
  }

  /** An operation declared at a relayed route's own path with a slash after it is
      over it too: the router redirects every request for the path there. */
  lemma DeclaredWithSlash(
      lib: Library, d: Declaration, registry: P.Registry, routes: map<string, P.Route>, path: string, o: Operation)
    requires Given(lib, d, registry, routes) && path in routes && d.consumed != []
    requires Registers(lib, Patterns(d)) && Registers(lib, routes.Keys) && OpPaths(d) !! Others(d)
    requires o in d.operations && o.path == AuthorityRoute(d.id) + path + "/"
    requires lib.decode(routes[path].provider.audience) == routes[path].provider.audience
    ensures Shadowed(lib, d, routes[path]) && !RelayReached(lib, d, routes, path)
  {
    RouteIsPlain(d, registry, routes, path);
    assert o.path in OpPaths(d);
    SlashedPathIs(lib, d.id, routes[path]);
    OwnSubtreeShadows(lib, d, routes[path], o);
    RelayReachedIff(lib, d, registry, routes, path);
  }

  lemma OwnSubtreeShadows(lib: Library, d: Declaration, r: P.Route, o: Operation)
    requires LikeHttp(lib) && PlainId(d.id) && Registers(lib, Patterns(d)) && d.consumed != []
    requires o in d.operations && o.path in OpPaths(d) && Pat(lib, o.path) == Pattern(OwnPattern(d.id, r).segs, Rest)
    ensures Shadowed(lib, d, r)
  {
    assert Mount(d.id) in Others(d);
    MountIs(lib, d.id);
    OwnSubtreeIsOver(d.id, r);
    assert Shadows(lib, d, o, r);
  }

  lemma OwnSubtreeIsOver(id: string, r: P.Route)
    ensures var own := Pattern(OwnPattern(id, r).segs, Rest);
            Below(own, Pattern([Lit("v1"), Lit(id), Lit("modules")], Rest)) && ExactWithSlash(own, Wire(id, r))
  {
  }

  function OwnNames(id: string, r: P.Route): seq<string> {
    ["v1", id, "modules", r.provider.audience, r.md.service]
  }

  lemma OwnLiterals(lib: Library, id: string, r: P.Route)
    requires LikeHttp(lib) && PlainId(id) && PlainRoute(lib, r)
    ensures forall name :: name in OwnNames(id, r) + [r.md.name] ==> Literal(name)
    ensures Literals(lib, OwnNames(id, r) + [r.md.name]) == OwnPattern(id, r).segs
  {
    PlainSegment(id);
    assert '%' !in "v1" && '%' !in "modules";
  }

  lemma SlashedPathIs(lib: Library, id: string, r: P.Route)
    requires LikeHttp(lib) && PlainId(id) && PlainRoute(lib, r) && Read(lib, AuthorityRoute(id) + r.path + "/").Some?
    ensures Pat(lib, AuthorityRoute(id) + r.path + "/") == Pattern(OwnPattern(id, r).segs, Rest)
  {
    OwnLiterals(lib, id, r);
    OwnPathIsSlashed(id, r);
    SlashedAfter(OwnNames(id, r), r.md.name);
    var path := AuthorityRoute(id) + r.path + "/";
    assert path == ['/'] + Slashed(OwnNames(id, r) + [r.md.name], "");
    ReadSlashed(lib, path, OwnNames(id, r) + [r.md.name], "");
  }

  lemma {:induction false} SlashedAfter(names: seq<string>, last: string)
    ensures Slashed(names + [last], "") == Slashed(names, last) + "/"
  {
    if names == [] {
      assert [] + [last] == [last] && [last][1..] == [];
      assert Slashed([last], "") == last + ['/'] + Slashed([], "");
    } else {
      SlashedAfter(names[1..], last);
      assert (names + [last])[1..] == names[1..] + [last];
      assert names[0] + ['/'] + (Slashed(names[1..], last) + "/") == names[0] + ['/'] + Slashed(names[1..], last) + "/";
    }
  }

  predicate PlainRoute(lib: Library, r: P.Route) {
    && lib.decode(r.provider.audience) == r.provider.audience && r.path == P.PathOf(r.provider.audience, r.md)
    && Literal(r.provider.audience) && Literal(r.md.service) && Literal(r.md.name)
    && '%' !in r.md.service && '%' !in r.md.name && r.md.name != ""
  }

  function OwnPattern(id: string, r: P.Route): Pattern {
    Pattern([Lit("v1"), Lit(id), Lit("modules"), Lit(r.provider.audience), Lit(r.md.service), Lit(r.md.name)], Exact)
  }

  lemma OwnPatternIsOver(id: string, r: P.Route)
    ensures Below(OwnPattern(id, r), Pattern([Lit("v1"), Lit(id), Lit("modules")], Rest))
    ensures Matches(OwnPattern(id, r), Wire(id, r))
  {
  }

  lemma OwnPathIs(lib: Library, id: string, r: P.Route)
    requires LikeHttp(lib) && PlainId(id) && PlainRoute(lib, r) && Read(lib, AuthorityRoute(id) + r.path).Some?
    ensures Pat(lib, AuthorityRoute(id) + r.path) == OwnPattern(id, r)
  {
    OwnLiterals(lib, id, r);
    OwnPathIsSlashed(id, r);
    assert forall name :: name in OwnNames(id, r) ==> name in OwnNames(id, r) + [r.md.name];
    assert r.md.name in OwnNames(id, r) + [r.md.name];
    ReadSlashed(lib, AuthorityRoute(id) + r.path, OwnNames(id, r), r.md.name);
  }

  lemma OwnPathIsSlashed(id: string, r: P.Route)
    requires r.path == P.PathOf(r.provider.audience, r.md)
    ensures AuthorityRoute(id) + r.path == ['/'] + Slashed(OwnNames(id, r), r.md.name)
  {
    var names := OwnNames(id, r);
    RouteIsSlashed(r.provider.audience, r.md);
    assert names[1..] == [id, "modules", r.provider.audience, r.md.service];
    assert names[1..][1..] == ["modules", r.provider.audience, r.md.service];
    var rest := Slashed(names[1..][1..], r.md.name);
    assert Slashed(names, r.md.name) == "v1" + ['/'] + (id + ['/'] + rest);
    assert "/v1/" == ['/'] + ("v1" + ['/']) && r.path == ['/'] + rest;
  }

  /** Nothing refuses it: a GET at the route's own path and the relayed POST are
      rendered together. */
  lemma DeclaredOverIsRendered(info: Info, o: Operation, base: string, r: P.Route)
    requires LikeUnicode(info.letters) && Validate(info.letters, o) == None && o.spelled == "get" && o.tool == ""
    requires o.path == base + r.path && forall i, name :: info.marks(i, name) != MarkerError
    ensures Renderable(info, [o, RelayedOperation(base, r)])
  {
    var p := RelayedOperation(base, r);
    assert Lower(info.letters, "get") == "get" && Lower(info.letters, "post") == "post";
    assert p.path[0] == o.path[0];
    RelayedIsValid(info.letters, base, r);
    IdsOfGetAndPost(info, RouteOf(o), RouteOf(p));
    TwoOfAKind(info, o, p);
  }

  /** Nor does anything refuse a GET at that path with a slash after it. */
  lemma DeclaredWithSlashIsRendered(info: Info, o: Operation, base: string, r: P.Route)
    requires LikeUnicode(info.letters) && Validate(info.letters, o) == None && o.spelled == "get" && o.tool == ""
    requires o.path == base + r.path + "/" && base + r.path != ""
    requires forall i, name :: info.marks(i, name) != MarkerError
    ensures Renderable(info, [o, RelayedOperation(base, r)])
  {
    var p := RelayedOperation(base, r);
    assert Lower(info.letters, "get") == "get" && Lower(info.letters, "post") == "post";
    assert p.path[0] == o.path[0];
    RelayedIsValid(info.letters, base, r);
    IdsOfGetAndPost(info, RouteOf(o), RouteOf(p));
    TwoOfAKind(info, o, p);
  }

  lemma RelayedIsValid(t: Table, base: string, r: P.Route)
    requires LikeUnicode(t) && (base + r.path) != "" && (base + r.path)[0] == '/'
    ensures Validate(t, RelayedOperation(base, r)) == None
  {
    PostIsPost(t, RelayedOperation(base, r));
  }

  lemma IdsOfGetAndPost(info: Info, one: string, other: string)
    requires LikeUnicode(info.letters)
    ensures OperationId(info.letters, info.prefix, "get", one) !=
              OperationId(info.letters, info.prefix, "post", other)
  {
    var t := info.letters;
    assert Lower(t, "get") == "get" && Lower(t, "post") == "post";
    var head := info.prefix + "_";
    var get, post := Title(t, "get"), Title(t, "post");
    var first, second := JoinTitled(t, T.Split(Trimmed(one), '/')), JoinTitled(t, T.Split(Trimmed(other), '/'));
    assert get[0] == 'G' && post[0] == 'P';
    assert (head + get + first)[|head|] == get[0] && (head + post + second)[|head|] == post[0];
  }
}
