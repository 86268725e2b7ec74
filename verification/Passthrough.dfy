/** The consumed modules' methods the page may call: which declarations can be
    served, and the routes they are served at. */
module Passthrough {
  import opened Wrappers
  import opened AskKey
  import M = MaskLaws
  import opened StreamBounds

  // --- declarations ---

  /** A method as the protobuf registry describes it. */
  datatype MethodDescriptor = MethodDescriptor(
    service: string, name: string, input: string, output: string, streamsRequests: bool, streamsAnswers: bool)

  datatype Registered = AMethod(md: MethodDescriptor) | SomethingElse

  predicate NameChar(c: char) {
    'a' <= c <= 'z' || 'A' <= c <= 'Z' || '0' <= c <= '9' || c == '_'
  }

  /** Protobuf names: a method's is one identifier, a service's is identifiers
      and dots, and a registered method is found under the two joined. */
  predicate WellNamed(registry: map<string, Registered>) {
    forall k :: k in registry && registry[k].AMethod? ==> NamesAMethod(k, registry[k].md)
  }

  predicate NamesAMethod(k: string, md: MethodDescriptor) {
    && md.name != "" && (forall c :: c in md.name ==> NameChar(c))
    && md.service != "" && (forall c :: c in md.service ==> NameChar(c) || c == '.')
    && k == md.service + "." + md.name
  }

  type Registry = registry: map<string, Registered> | WellNamed(registry) witness map[]

  /** A response mask: the message it is over, and the paths declared in it. */
  datatype ResponseMask = ResponseMask(of: string, declared: set<M.Path>)

  /** A method the page may call. pin is the message a pin is of. */
  datatype ConsumedMethod = ConsumedMethod(
    name: string, scopes: seq<Scope>, mask: Option<ResponseMask>, whole: bool, pin: Option<string>, bounds: Bounds)

  datatype ConsumedModule = ConsumedModule(
    audience: string, scopes: seq<Scope>, methods: seq<ConsumedMethod>, group: string, endpointKey: string,
    bindingKey: string)

  datatype Route = Route(path: string, provider: ConsumedModule, rpc: ConsumedMethod, md: MethodDescriptor)

  datatype ScopeFault =
    | NoKind
    | NoAction(kind: string)
    | BlankAction(kind: string)
    | RepeatedAction(kind: string, action: string)

  datatype Cause =
    | NotOneSegment | ModuleTwice | NoMethods | NoRelay | UnusableScopes(fault: ScopeFault)
    | NotRegistered | StreamsRequests | Unbounded | MaskAndWhole | NoResponseFields | MaskOfAnother
    | NoScopes | PinOfAnother | MethodTwice

  datatype Fault = Fault(audience: string, cause: Cause)

  // --- scopes ---

  predicate IsSpace(c: char) {
    || c in "\t\n\r \U{000B}\U{000C}\U{0085}\U{00A0}\U{1680}\U{2028}\U{2029}\U{202F}\U{205F}\U{3000}"
    || '\U{2000}' <= c <= '\U{200A}'
  }

  predicate Blank(s: string) {
    forall c :: c in s ==> IsSpace(c)
  }

  /** Blank, or changed by trimming. */
  predicate Padded(s: string) {
    s == "" || IsSpace(s[0]) || IsSpace(s[|s| - 1])
  }

  predicate Repeats(xs: seq<string>) {
    exists i, j :: 0 <= i < j < |xs| && xs[i] == xs[j]
  }

  /** A scope that names some authority: a kind, and actions, each once. */
  predicate Usable(s: Scope) {
    && !Padded(s.kind) && s.actions != []
    && (forall action :: action in s.actions ==> !Padded(action)) && !Repeats(s.actions)
  }

  predicate AllUsable(scopes: seq<Scope>) {
    forall s :: s in scopes ==> Usable(s)
  }

  /** What is wrong with a scope, when something is. */
  predicate Wrong(s: Scope, fault: ScopeFault) {
    match fault
    case NoKind => Padded(s.kind)
    case NoAction(kind) => kind == s.kind && s.actions == []
    case BlankAction(kind) => kind == s.kind && exists action :: action in s.actions && Padded(action)
    case RepeatedAction(kind, action) =>
      kind == s.kind && exists i, j :: 0 <= i < j < |s.actions| && s.actions[i] == s.actions[j] == action
  }

  method CheckScope(scope: Scope) returns (fault: Option<ScopeFault>)
    ensures fault == None <==> Usable(scope)
    ensures fault.Some? ==> Wrong(scope, fault.value)
  {
    if Padded(scope.kind) {
      return Some(NoKind);
    }
    if |scope.actions| == 0 {
      return Some(NoAction(scope.kind));
    }
    var seen: set<string> := {};
    for i := 0 to |scope.actions|
      invariant seen == set k | 0 <= k < i :: scope.actions[k]
      invariant forall k :: 0 <= k < i ==> !Padded(scope.actions[k])
      invariant forall j, k :: 0 <= j < k < i ==> scope.actions[j] != scope.actions[k]
    {
      var action := scope.actions[i];
      if Padded(action) {
        return Some(BlankAction(scope.kind));
      }
      if action in seen {
        return Some(RepeatedAction(scope.kind, action));
      }
      seen := seen + {action};
    }
    return None;
  }

  method CheckScopes(scopes: seq<Scope>) returns (fault: Option<ScopeFault>)
    ensures fault == None <==> AllUsable(scopes)
    ensures fault.Some? ==> exists s :: s in scopes && Wrong(s, fault.value)
  {
    for i := 0 to |scopes|
      invariant forall k :: 0 <= k < i ==> Usable(scopes[k])
    {
      fault := CheckScope(scopes[i]);
      if fault.Some? {
        return;
      }
    }
    fault := None;
  }

  // --- one declaration ---

  const RESERVED := "/?#{}*:\\"

  /** One path segment: nothing reserved in it, and not a dot segment. */
  predicate OneSegment(audience: string) {
    audience != "" && (forall c :: c in audience ==> c !in RESERVED) && audience != "." && audience != ".."
  }

  function LastSlash(s: string): (i: int)
    ensures -1 <= i < |s|
  {
    if s == [] then -1 else if s[|s| - 1] == '/' then |s| - 1 else LastSlash(s[..|s| - 1])
  }

  function Unslashed(rpc: string): string {
    if rpc != [] && rpc[0] == '/' then rpc[1..] else rpc
  }

  function Dotted(name: string): string {
    var i := LastSlash(name);
    if i >= 0 then name[..i] + "." + name[i + 1..] else name
  }

  /** "/package.Service/Method", or its dotted form, as the registry names it. */
  function RegistryName(rpc: string): string { Dotted(Unslashed(rpc)) }

  function Lookup(registry: Registry, rpc: string): Option<MethodDescriptor>
  {
    var name := RegistryName(rpc);
    if name in registry && registry[name].AMethod? then Some(registry[name].md) else None
  }

  lemma LookupIsNamed(registry: Registry, rpc: string, md: MethodDescriptor)
    requires Lookup(registry, rpc) == Some(md)
    ensures '/' !in md.service && '/' !in md.name && RegistryName(rpc) == md.service + "." + md.name
    ensures md.name != "" && NameChar(md.name[|md.name| - 1])
  {
  }

  /** Neither part of a method's name holds a character a path gives a meaning. */
  lemma LookupIsPlain(registry: Registry, rpc: string, md: MethodDescriptor)
    requires Lookup(registry, rpc) == Some(md)
    ensures md.service != "" && md.name != ""
    ensures forall c :: c in md.service || c in md.name ==> c !in RESERVED && c != '%' && c != ' ' && c != '\t'
  {
    assert NamesAMethod(RegistryName(rpc), md);
    assert forall c :: NameChar(c) || c == '.' ==> c !in RESERVED;
  }

  const PREFIX := "/modules/"

  function PathOf(audience: string, md: MethodDescriptor): string {
    PREFIX + audience + "/" + md.service + "/" + md.name
  }

  /** What keeps a module's own declaration from being served, scopes apart. */
  function ModuleCause(m: ConsumedModule, seen: bool): Option<Cause> {
    if !OneSegment(m.audience) then Some(NotOneSegment)
    else if seen then Some(ModuleTwice)
    else if m.methods == [] then Some(NoMethods)
    else if m.group == "" || m.endpointKey == "" || m.bindingKey == "" then Some(NoRelay)
    else None
  }

  /** What keeps a method from being relayed, scopes and repetition apart. */
  function MethodCause(m: ConsumedModule, rpc: ConsumedMethod, md: MethodDescriptor): Option<Cause> {
    if md.streamsRequests then Some(StreamsRequests)
    else if !BoundsAccepted(md.streamsAnswers, rpc.bounds) then Some(Unbounded)
    else if rpc.whole && rpc.mask.Some? then Some(MaskAndWhole)
    else if !rpc.whole && rpc.mask == None then Some(NoResponseFields)
    else if rpc.mask.Some? && rpc.mask.value.of != md.output then Some(MaskOfAnother)
    else if m.scopes == [] && rpc.scopes == [] then Some(NoScopes)
    else None
  }

  predicate PinFits(rpc: ConsumedMethod, md: MethodDescriptor) {
    rpc.pin == None || rpc.pin.value == md.input
  }

  /** A method that can be relayed. */
  predicate Relayable(m: ConsumedModule, rpc: ConsumedMethod, registry: Registry) {
    var md := Lookup(registry, rpc.name);
    && md.Some? && MethodCause(m, rpc, md.value) == None && AllUsable(rpc.scopes) && PinFits(rpc, md.value)
  }

  /** A module whose first n methods can be relayed, each named once. */
  predicate ServableUpTo(m: ConsumedModule, registry: Registry, n: nat) {
    && ModuleCause(m, false) == None && AllUsable(m.scopes)
    && EachRelayable(m, registry, n) && EachNamedOnce(m, registry, n)
  }

  predicate EachRelayable(m: ConsumedModule, registry: Registry, n: nat) {
    forall j :: 0 <= j < n <= |m.methods| ==> Relayable(m, m.methods[j], registry)
  }

  predicate EachNamedOnce(m: ConsumedModule, registry: Registry, n: nat) {
    forall i, j :: 0 <= i < j < n <= |m.methods| ==>
         Lookup(registry, m.methods[i].name) != Lookup(registry, m.methods[j].name)
  }

  predicate Servable(m: ConsumedModule, registry: Registry) {
    ServableUpTo(m, registry, |m.methods|)
  }

  /** A whole declaration that can be served. */
  predicate Resolvable(modules: seq<ConsumedModule>, registry: Registry) {
    && (forall m :: m in modules ==> Servable(m, registry))
    && (forall i, j :: 0 <= i < j < |modules| ==> modules[i].audience != modules[j].audience)
  }

  // --- the routes ---

  function RouteOf(m: ConsumedModule, rpc: ConsumedMethod, registry: Registry): Route
    requires Lookup(registry, rpc.name).Some?
  {
    var md := Lookup(registry, rpc.name).value;
    Route(PathOf(m.audience, md), m, rpc, md)
  }

  /** The module's own procedure a route relays to. */
  function Procedure(r: Route): string {
    "/" + r.md.service + "/" + r.md.name
  }

  /** The authority a call asks for: the method's own scopes, else the module's. */
  function RouteScopes(r: Route): seq<Scope> {
    if r.rpc.scopes != [] then r.rpc.scopes else r.provider.scopes
  }

  /** Every declared method of these modules is a route at its own path. */
  ghost predicate Served(routes: map<string, Route>, m: ConsumedModule, registry: Registry, n: nat) {
    forall j :: 0 <= j < n <= |m.methods| ==> IsRoute(routes, m, m.methods[j], registry)
  }

  predicate IsRoute(routes: map<string, Route>, m: ConsumedModule, rpc: ConsumedMethod, registry: Registry) {
    && Lookup(registry, rpc.name).Some?
    && RouteOf(m, rpc, registry).path in routes
    && routes[RouteOf(m, rpc, registry).path] == RouteOf(m, rpc, registry)
  }

  /** And every route is one of them. */
  ghost predicate Declared(modules: seq<ConsumedModule>, r: Route, path: string, registry: Registry) {
    r.provider in modules && r.rpc in r.provider.methods && Lookup(registry, r.rpc.name) == Some(r.md) &&
    r.path == path == PathOf(r.provider.audience, r.md)
  }

  ghost predicate IsRouting(routes: map<string, Route>, modules: seq<ConsumedModule>, registry: Registry) {
    && (forall m :: m in modules ==> Served(routes, m, registry, |m.methods|))
    && (forall path :: path in routes ==> Declared(modules, routes[path], path, registry))
  }

  lemma {:induction false} FirstSegment(a: string, x: string, b: string, y: string)
    requires '/' !in a && '/' !in b && a + "/" + x == b + "/" + y
    ensures a == b && x == y
  {
    var s := a + "/" + x;
    assert s[|a|] == '/' && s[|b|] == '/';
    assert forall k :: 0 <= k < |a| ==> s[k] == a[k];
    assert forall k :: 0 <= k < |b| ==> s[k] == b[k];
    assert s[..|a|] == a && s[..|b|] == b && s[|a| + 1..] == x && s[|b| + 1..] == y;
  }

  /** A path names its module and its rpc. */
  lemma PathsTellApart(a: string, x: MethodDescriptor, b: string, y: MethodDescriptor)
    requires '/' !in a && '/' !in b && '/' !in x.service && '/' !in y.service
    requires PathOf(a, x) == PathOf(b, y)
    ensures a == b && x.service == y.service && x.name == y.name
  {
    var restX, restY := x.service + "/" + x.name, y.service + "/" + y.name;
    assert PathOf(a, x) == PREFIX + (a + "/" + restX) && PathOf(b, y) == PREFIX + (b + "/" + restY);
    assert PathOf(a, x)[|PREFIX|..] == a + "/" + restX && PathOf(b, y)[|PREFIX|..] == b + "/" + restY;
    FirstSegment(a, restX, b, restY);
    FirstSegment(x.service, x.name, y.service, y.name);
  }

  // --- the loop over the declaration ---

  lemma OneSegmentIff(audience: string)
    ensures OneSegment(audience) <==>
            && audience != "" && audience != "." && audience != ".."
            && forall c :: c in audience ==> c !in {'/', '?', '#', '{', '}', '*', ':', '\\'}
  {
    assert forall c :: c in RESERVED <==> c in {'/', '?', '#', '{', '}', '*', ':', '\\'};
  }

  /** What a cause says of a module's own declaration. */
  predicate ModuleWrong(m: ConsumedModule, seen: bool, cause: Cause) {
    match cause
    case NotOneSegment =>
      || m.audience in {"", ".", ".."}
      || exists c :: c in m.audience && c in {'/', '?', '#', '{', '}', '*', ':', '\\'}
    case ModuleTwice => seen
    case NoMethods => m.methods == []
    case NoRelay => m.group == "" || m.endpointKey == "" || m.bindingKey == ""
    case _ => false
  }

  /** And of a method's, over what it is registered as. */
  predicate MethodWrong(m: ConsumedModule, rpc: ConsumedMethod, md: MethodDescriptor, cause: Cause) {
    match cause
    case StreamsRequests => md.streamsRequests
    case Unbounded =>
      if md.streamsAnswers then
        || rpc.bounds.maxDuration < 0 || rpc.bounds.maxDuration > 1_800_000_000_000
        || rpc.bounds.maxMessageBytes < 0 || rpc.bounds.maxResponseBytes != 0
      else rpc.bounds.maxDuration != 0 || rpc.bounds.maxMessageBytes != 0
    case MaskAndWhole => rpc.whole && rpc.mask.Some?
    case NoResponseFields => !rpc.whole && rpc.mask == None
    case MaskOfAnother => rpc.mask.Some? && rpc.mask.value.of != md.output
    case NoScopes => m.scopes == [] && rpc.scopes == []
    case PinOfAnother => rpc.pin.Some? && rpc.pin.value != md.input
    case _ => false
  }

  lemma CauseIsTrue(m: ConsumedModule, seen: bool)
    requires ModuleCause(m, seen).Some?
    ensures ModuleWrong(m, seen, ModuleCause(m, seen).value)
  {
    OneSegmentIff(m.audience);
  }

  /** What is wrong with a method, when something is. */
  ghost predicate MethodAtFault(m: ConsumedModule, rpc: ConsumedMethod, registry: Registry, cause: Cause) {
    var md := Lookup(registry, rpc.name);
    match cause
    case NotRegistered => md == None
    case UnusableScopes(fault) => exists s :: s in rpc.scopes && Wrong(s, fault)
    case _ => md.Some? && MethodWrong(m, rpc, md.value, cause)
  }

  ghost predicate NamedBefore(m: ConsumedModule, j: nat, registry: Registry) {
    exists k :: 0 <= k < j < |m.methods| && Lookup(registry, m.methods[k].name) == Lookup(registry, m.methods[j].name)
  }

  /** What is wrong with a module, itself or a method of it, when something is. */
  ghost predicate AtFault(modules: seq<ConsumedModule>, i: nat, registry: Registry, cause: Cause)
    requires i < |modules|
  {
    var m := modules[i];
    || ModuleWrong(m, exists k :: 0 <= k < i && modules[k].audience == m.audience, cause)
    || (cause.UnusableScopes? && exists s :: s in m.scopes && Wrong(s, cause.fault))
    || (exists j :: 0 <= j < |m.methods| && MethodAtFault(m, m.methods[j], registry, cause))
    || (cause == MethodTwice && exists j :: NamedBefore(m, j, registry))
  }

  ghost predicate Blames(modules: seq<ConsumedModule>, registry: Registry, fault: Fault) {
    exists i ::
      0 <= i < |modules| && modules[i].audience == fault.audience && AtFault(modules, i, registry, fault.cause)
  }

  method CheckMethod(m: ConsumedModule, rpc: ConsumedMethod, registry: Registry) returns (r: Result<Route, Cause>)
    ensures r.Ok? <==> Relayable(m, rpc, registry)
    ensures r.Ok? ==> r.value == RouteOf(m, rpc, registry)
    ensures r.Err? ==> MethodAtFault(m, rpc, registry, r.error)
  {
    var md := Lookup(registry, rpc.name);
    if md == None {
      return Err(NotRegistered);
    }
    var cause := MethodCause(m, rpc, md.value);
    if cause.Some? {
      return Err(cause.value);
    }
    var fault := CheckScopes(rpc.scopes);
    if fault.Some? {
      return Err(UnusableScopes(fault.value));
    }
    if !PinFits(rpc, md.value) {
      return Err(PinOfAnother);
    }
    return Ok(RouteOf(m, rpc, registry));
  }

  /** Where the loops stand: the first i modules are served, and the first j
      methods of the next, and nothing else is. */
  ghost predicate Reached(routes: map<string, Route>, modules: seq<ConsumedModule>, registry: Registry, i: nat, j: nat)
    requires i <= |modules|
  {
    && (forall k :: 0 <= k < i ==>
         Servable(modules[k], registry) && Served(routes, modules[k], registry, |modules[k].methods|))
    && (forall k, l :: 0 <= k < l < i ==> modules[k].audience != modules[l].audience)
    && (i < |modules| && j > 0 ==> Served(routes, modules[i], registry, j))
    && Accounted(routes, modules, registry, i, j)
  }

  ghost predicate Accounted(
      routes: map<string, Route>, modules: seq<ConsumedModule>, registry: Registry, i: nat, j: nat)
    requires i <= |modules|
  {
    forall path :: path in routes ==>
         Declared(modules, routes[path], path, registry) && From(modules, routes[path], i, j)
  }

  ghost predicate From(modules: seq<ConsumedModule>, r: Route, i: nat, j: nat)
    requires i <= |modules|
  {
    || (exists k :: 0 <= k < i && modules[k] == r.provider)
    || (i < |modules| && j <= |modules[i].methods| && modules[i] == r.provider && r.rpc in modules[i].methods[..j])
  }

  /** At a fault-free method, its path is taken exactly when it was named before. */
  lemma TakenIffNamedBefore(
      routes: map<string, Route>, modules: seq<ConsumedModule>, registry: Registry, i: nat, j: nat)
    requires i < |modules| && j < |modules[i].methods| && Reached(routes, modules, registry, i, j)
    requires ServableUpTo(modules[i], registry, j) && Relayable(modules[i], modules[i].methods[j], registry)
    requires forall k :: 0 <= k < i ==> modules[k].audience != modules[i].audience
    ensures RouteOf(modules[i], modules[i].methods[j], registry).path in routes <==>
              NamedBefore(modules[i], j, registry)
  {
    var m := modules[i];
    var route := RouteOf(m, m.methods[j], registry);
    if route.path in routes {
      var other := routes[route.path];
      assert Declared(modules, other, route.path, registry);
      ProviderIsClean(modules, registry, other, i, j);
      LookupIsNamed(registry, other.rpc.name, other.md);
      LookupIsNamed(registry, m.methods[j].name, route.md);
      PathsTellApart(m.audience, route.md, other.provider.audience, other.md);
      assert other.provider == m;
      var k :| 0 <= k < j && m.methods[k] == other.rpc;
      assert RegistryName(m.methods[k].name) == RegistryName(m.methods[j].name);
      assert NamedBefore(m, j, registry);
    }
    if NamedBefore(m, j, registry) {
      var k :| 0 <= k < j && Lookup(registry, m.methods[k].name) == Lookup(registry, m.methods[j].name);
      assert IsRoute(routes, m, m.methods[k], registry);
    }
  }

  lemma ProviderIsClean(modules: seq<ConsumedModule>, registry: Registry, r: Route, i: nat, j: nat)
    requires i < |modules| && From(modules, r, i, j)
    requires (forall k :: 0 <= k < i ==> Servable(modules[k], registry)) && ModuleCause(modules[i], false) == None
    ensures '/' !in r.provider.audience
  {
  }

  /** One method, checked and given its path. */
  method AddMethod(modules: seq<ConsumedModule>, i: nat, j: nat, registry: Registry, routes: map<string, Route>)
    returns (r: Result<map<string, Route>, Cause>)
    requires i < |modules| && j < |modules[i].methods| && Reached(routes, modules, registry, i, j)
    requires ServableUpTo(modules[i], registry, j)
    requires forall k :: 0 <= k < i ==> modules[k].audience != modules[i].audience
    ensures r.Ok? <==> ServableUpTo(modules[i], registry, j + 1)
    ensures r.Ok? ==> Reached(r.value, modules, registry, i, j + 1)
    ensures r.Err? ==> AtFault(modules, i, registry, r.error)
  {
    var m := modules[i];
    OneMoreServable(m, registry, j);
    var checked := CheckMethod(m, m.methods[j], registry);
    if checked.Err? {
      assert MethodAtFault(m, m.methods[j], registry, checked.error);
      return Err(checked.error);
    }
    var route := checked.value;
    TakenIffNamedBefore(routes, modules, registry, i, j);
    if route.path in routes {
      assert NamedBefore(m, j, registry);
      return Err(MethodTwice);
    }
    OneMoreRoute(routes, modules, registry, i, j);
    return Ok(routes[route.path := route]);
  }

  lemma OneMoreServable(m: ConsumedModule, registry: Registry, j: nat)
    requires j < |m.methods| && ServableUpTo(m, registry, j)
    ensures ServableUpTo(m, registry, j + 1) <==> Relayable(m, m.methods[j], registry) && !NamedBefore(m, j, registry)
  {
    OneMoreRelayable(m, registry, j);
    OneMoreNamed(m, registry, j);
  }

  lemma OneMoreRelayable(m: ConsumedModule, registry: Registry, j: nat)
    requires j < |m.methods|
    ensures EachRelayable(m, registry, j + 1) <==> EachRelayable(m, registry, j) && Relayable(m, m.methods[j], registry)
  {
  }

  lemma OneMoreNamed(m: ConsumedModule, registry: Registry, j: nat)
    requires j < |m.methods|
    ensures EachNamedOnce(m, registry, j + 1) <==> EachNamedOnce(m, registry, j) && !NamedBefore(m, j, registry)
  {
  }

  /** One module's methods, each checked and given its path. */
  method AddMethods(modules: seq<ConsumedModule>, i: nat, registry: Registry, before: map<string, Route>)
    returns (r: Result<map<string, Route>, Cause>)
    requires i < |modules| && Reached(before, modules, registry, i, 0)
    requires ModuleCause(modules[i], false) == None && AllUsable(modules[i].scopes)
    requires forall k :: 0 <= k < i ==> modules[k].audience != modules[i].audience
    ensures r.Ok? <==> Servable(modules[i], registry)
    ensures r.Ok? ==> Reached(r.value, modules, registry, i + 1, 0)
    ensures r.Err? ==> AtFault(modules, i, registry, r.error)
  {
    var m := modules[i];
    var routes := before;
    for j := 0 to |m.methods|
      invariant ServableUpTo(m, registry, j) && Reached(routes, modules, registry, i, j)
    {
      var added := AddMethod(modules, i, j, registry, routes);
      if added.Err? {
        return Err(added.error);
      }
      routes := added.value;
    }
    AllRoutesOf(routes, modules, registry, i);
    return Ok(routes);
  }

  lemma OneMoreRoute(routes: map<string, Route>, modules: seq<ConsumedModule>, registry: Registry, i: nat, j: nat)
    requires i < |modules| && j < |modules[i].methods| && Reached(routes, modules, registry, i, j)
    requires Relayable(modules[i], modules[i].methods[j], registry)
    requires RouteOf(modules[i], modules[i].methods[j], registry).path !in routes
    ensures var route := RouteOf(modules[i], modules[i].methods[j], registry);
            Reached(routes[route.path := route], modules, registry, i, j + 1)
  {
    var m := modules[i];
    var route := RouteOf(m, m.methods[j], registry);
    OneMoreAccounted(routes, modules, registry, i, j);
    forall k | 0 <= k < i ensures Served(routes[route.path := route], modules[k], registry, |modules[k].methods|) {
      ServedStays(routes, route.path, route, modules[k], registry, |modules[k].methods|);
    }
    if j > 0 { ServedStays(routes, route.path, route, m, registry, j); }
    assert IsRoute(routes[route.path := route], m, m.methods[j], registry);
  }

  lemma OneMoreAccounted(routes: map<string, Route>, modules: seq<ConsumedModule>, registry: Registry, i: nat, j: nat)
    requires i < |modules| && j < |modules[i].methods| && Accounted(routes, modules, registry, i, j)
    requires Lookup(registry, modules[i].methods[j].name).Some?
    ensures var route := RouteOf(modules[i], modules[i].methods[j], registry);
            Accounted(routes[route.path := route], modules, registry, i, j + 1)
  {
    var m := modules[i];
    var route := RouteOf(m, m.methods[j], registry);
    forall path | path in routes
      ensures Declared(modules, routes[path], path, registry) && From(modules, routes[path], i, j + 1)
    {
      FromStays(modules, routes[path], i, j);
    }
    NewIsDeclared(modules, registry, i, j);
  }

  lemma NewIsDeclared(modules: seq<ConsumedModule>, registry: Registry, i: nat, j: nat)
    requires i < |modules| && j < |modules[i].methods| && Lookup(registry, modules[i].methods[j].name).Some?
    ensures var route := RouteOf(modules[i], modules[i].methods[j], registry);
            Declared(modules, route, route.path, registry) && From(modules, route, i, j + 1)
  {
    var m := modules[i];
    assert m.methods[..j + 1] == m.methods[..j] + [m.methods[j]];
  }

  lemma FromStays(modules: seq<ConsumedModule>, r: Route, i: nat, j: nat)
    requires i < |modules| && j < |modules[i].methods| && From(modules, r, i, j)
    ensures From(modules, r, i, j + 1)
  {
  }

  lemma ServedStays(
      routes: map<string, Route>, path: string, route: Route, m: ConsumedModule, registry: Registry, n: nat)
    requires Served(routes, m, registry, n) && path !in routes
    ensures Served(routes[path := route], m, registry, n)
  {
  }

  lemma AllRoutesOf(routes: map<string, Route>, modules: seq<ConsumedModule>, registry: Registry, i: nat)
    requires i < |modules| && Reached(routes, modules, registry, i, |modules[i].methods|)
    requires Servable(modules[i], registry)
    requires forall k :: 0 <= k < i ==> modules[k].audience != modules[i].audience
    ensures Reached(routes, modules, registry, i + 1, 0)
  {
  }

  /** The routes of a declaration: it resolves exactly when it is Resolvable, and
      then there is one route for each declared method, at a path of its own, and
      no other. A refusal names a module and something that is wrong with it. */
  method ResolvePassthrough(modules: seq<ConsumedModule>, registry: Registry)
    returns (r: Result<map<string, Route>, Fault>)
    ensures r.Ok? <==> Resolvable(modules, registry)
    ensures r.Ok? ==> IsRouting(r.value, modules, registry)
    ensures r.Err? ==> Blames(modules, registry, r.error)
  {
    var routes: map<string, Route> := map[];
    var seen: set<string> := {};
    for i := 0 to |modules|
      invariant seen == set k | 0 <= k < i :: modules[k].audience
      invariant Reached(routes, modules, registry, i, 0)
    {
      var m := modules[i];
      var twice := m.audience in seen;
      var cause := ModuleCause(m, twice);
      if cause.Some? {
        CauseIsTrue(m, twice);
        assert AtFault(modules, i, registry, cause.value);
        assert m in modules && (Servable(m, registry) ==> twice);
        return Err(Fault(m.audience, cause.value));
      }
      var fault := CheckScopes(m.scopes);
      if fault.Some? {
        assert AtFault(modules, i, registry, UnusableScopes(fault.value));
        assert m in modules && !Servable(m, registry);
        return Err(Fault(m.audience, UnusableScopes(fault.value)));
      }
      seen := seen + {m.audience};
      var added := AddMethods(modules, i, registry, routes);
      if added.Err? {
        return Err(Fault(m.audience, added.error));
      }
      routes := added.value;
    }
    return Ok(routes);
  }

  // --- what resolves, written out ---

  /** White space, as Unicode has it. */
  predicate IsWhite(code: int) {
    || 9 <= code <= 13 || code == 32 || code == 0x85 || code == 0xA0 || code == 0x1680
    || 0x2000 <= code <= 0x200A || code == 0x2028 || code == 0x2029 || code == 0x202F || code == 0x205F
    || code == 0x3000
  }

  function Trimmed(s: string): string {
    if s != "" && IsWhite(s[0] as int) then Trimmed(s[1..])
    else if s != "" && IsWhite(s[|s| - 1] as int) then Trimmed(s[..|s| - 1])
    else s
  }

  lemma TrimmedIsNoLonger(s: string)
    ensures |Trimmed(s)| <= |s|
  {
  }

  lemma PaddedIff(s: string)
    ensures Padded(s) <==> Trimmed(s) == "" || Trimmed(s) != s
  {
    assert s != "" ==> (IsSpace(s[0]) <==> IsWhite(s[0] as int));
    assert s != "" ==> (IsSpace(s[|s| - 1]) <==> IsWhite(s[|s| - 1] as int));
    if Padded(s) && s != "" {
      if IsSpace(s[0]) { TrimmedIsNoLonger(s[1..]); } else { TrimmedIsNoLonger(s[..|s| - 1]); }
    }
  }

  lemma {:induction false} BlankIff(s: string)
    ensures Blank(s) <==> Trimmed(s) == ""
    decreases |s|
  {
    assert forall c: char :: IsSpace(c) <==> IsWhite(c as int);
    if s != "" && IsWhite(s[0] as int) {
      BlankIff(s[1..]);
      assert s == [s[0]] + s[1..];
    } else if s != "" && IsWhite(s[|s| - 1] as int) {
      assert s[0] in s;
      BlankIff(s[..|s| - 1]);
      assert s[..|s| - 1] != "" ==> s[0] in s[..|s| - 1];
    } else if s != "" {
      assert s[0] in s;
    }
  }

  /** A scope that can be asked for: its kind and each action a word that trimming
      leaves as it is, some action, and none twice. */
  predicate CanBeAsked(scope: Scope) {
    && Trimmed(scope.kind) == scope.kind != "" && scope.actions != []
    && (forall i :: 0 <= i < |scope.actions| ==> Trimmed(scope.actions[i]) == scope.actions[i] != "")
    && (forall i, j :: 0 <= i < j < |scope.actions| ==> scope.actions[i] != scope.actions[j])
  }

  lemma UsableIff(scope: Scope)
    ensures Usable(scope) <==> CanBeAsked(scope)
  {
    PaddedIff(scope.kind);
    forall i | 0 <= i < |scope.actions|
      ensures Padded(scope.actions[i]) <==>
              Trimmed(scope.actions[i]) == "" || Trimmed(scope.actions[i]) != scope.actions[i]
    {
      PaddedIff(scope.actions[i]);
    }
    if Usable(scope) {
      assert forall i :: 0 <= i < |scope.actions| ==> scope.actions[i] in scope.actions;
      assert !Repeats(scope.actions);
    }
  }

  /** One of the dots in a name, written as a slash. */
  predicate DotAsSlash(name: string, full: string, i: nat) {
    i < |full| && full[i] == '.' && name == full[i := '/']
  }

  /** The full name, or it with one of its dots written as a slash. */
  ghost predicate Spells(name: string, full: string) {
    name == full || exists i: nat :: DotAsSlash(name, full, i)
  }

  predicate BehindASlash(rpc: string, name: string) {
    rpc == "/" + name || (rpc == name && !("/" <= name))
  }

  /** rpc, without one slash before it, spells the method's full name. */
  ghost predicate NamesIt(rpc: string, full: string) {
    exists name :: BehindASlash(rpc, name) && Spells(name, full)
  }

  lemma {:induction false} LastSlashIs(s: string)
    ensures LastSlash(s) >= 0 ==> s[LastSlash(s)] == '/'
    ensures forall k :: LastSlash(s) < k < |s| ==> s[k] != '/'
  {
    if s != [] { LastSlashIs(s[..|s| - 1]); }
  }

  lemma DottedIs(name: string, full: string)
    requires '/' !in full && Dotted(name) == full
    ensures Spells(name, full)
  {
    LastSlashIs(name);
    var i := LastSlash(name);
    if i >= 0 {
      assert full[i := '/'] == name;
      assert DotAsSlash(name, full, i);
    }
  }

  lemma IsDotted(name: string, full: string, k: nat)
    requires '/' !in full && (name == full || DotAsSlash(name, full, k))
    ensures Dotted(name) == full
  {
    LastSlashIs(name);
    if name == full {
      assert forall l :: 0 <= l < |name| ==> name[l] != '/';
    } else {
      assert name[k] == '/' && forall l :: k < l < |name| ==> name[l] == full[l] != '/';
      assert name[..k] + "." + name[k + 1..] == full;
    }
  }

  lemma UnslashedIs(rpc: string, name: string)
    ensures BehindASlash(rpc, name) <==> name == Unslashed(rpc)
  {
    if rpc != [] && rpc[0] == '/' { assert rpc == "/" + rpc[1..]; }
    assert rpc == "/" + name ==> rpc[1..] == name;
  }

  lemma DottedIff(name: string, full: string)
    requires '/' !in full
    ensures Spells(name, full) <==> Dotted(name) == full
  {
    if Dotted(name) == full { DottedIs(name, full); }
    if name == full { IsDotted(name, full, 0); }
    if i: nat :| DotAsSlash(name, full, i) { IsDotted(name, full, i); }
  }

  lemma RegistryNameIff(rpc: string, full: string)
    requires '/' !in full
    ensures RegistryName(rpc) == full <==> NamesIt(rpc, full)
  {
    UnslashedIs(rpc, Unslashed(rpc));
    DottedIff(Unslashed(rpc), full);
    if name :| BehindASlash(rpc, name) && Spells(name, full) { UnslashedIs(rpc, name); }
  }

  /** A method is found by its full name, whichever one of its dots is written as a
      slash, and a slash before it or none; and by nothing else. */
  lemma LookupIff(registry: Registry, rpc: string, md: MethodDescriptor)
    ensures Lookup(registry, rpc) == Some(md) <==>
              exists full :: full in registry && registry[full] == AMethod(md) && NamesIt(rpc, full)
  {
    if Lookup(registry, rpc) == Some(md) {
      assert NamesAMethod(RegistryName(rpc), md);
      RegistryNameIff(rpc, RegistryName(rpc));
    }
    if full :| full in registry && registry[full] == AMethod(md) && NamesIt(rpc, full) {
      assert NamesAMethod(full, md);
      RegistryNameIff(rpc, full);
    }
  }

  /** A method that can be relayed, rule by rule: registered, its requests not
      streamed, its bounds in range (a stream of at most half an hour, in
      nanoseconds), its answer's fields named or all of it said to pass, over its own
      answer, something asked for, and a pin of what it reads. */
  predicate CanBeRelayed(m: ConsumedModule, rpc: ConsumedMethod, registry: Registry) {
    && Lookup(registry, rpc.name).Some?
    && var md := Lookup(registry, rpc.name).value;
       && !md.streamsRequests
       && (md.streamsAnswers ==>
             0 <= rpc.bounds.maxDuration <= 1_800_000_000_000 && 0 <= rpc.bounds.maxMessageBytes
             && rpc.bounds.maxResponseBytes == 0)
       && (!md.streamsAnswers ==> rpc.bounds.maxDuration == 0 && rpc.bounds.maxMessageBytes == 0)
       && (rpc.whole <==> rpc.mask == None)
       && (rpc.mask.Some? ==> rpc.mask.value.of == md.output)
       && (m.scopes != [] || rpc.scopes != [])
       && (forall scope :: scope in rpc.scopes ==> CanBeAsked(scope))
       && (rpc.pin.Some? ==> rpc.pin.value == md.input)
  }

  /** A module that can be served, rule by rule. */
  predicate CanBeServed(m: ConsumedModule, registry: Registry) {
    && m.audience != "" && m.audience != "." && m.audience != ".."
    && (forall c :: c in m.audience ==> c !in {'/', '?', '#', '{', '}', '*', ':', '\\'})
    && m.group != "" && m.endpointKey != "" && m.bindingKey != ""
    && (forall scope :: scope in m.scopes ==> CanBeAsked(scope))
    && m.methods != []
    && (forall j :: 0 <= j < |m.methods| ==> CanBeRelayed(m, m.methods[j], registry))
    && (forall i, j :: 0 <= i < j < |m.methods| ==>
          Lookup(registry, m.methods[i].name) != Lookup(registry, m.methods[j].name))
  }

  lemma AllUsableIff(scopes: seq<Scope>)
    ensures AllUsable(scopes) <==> forall scope :: scope in scopes ==> CanBeAsked(scope)
  {
    forall scope | scope in scopes ensures Usable(scope) <==> CanBeAsked(scope) { UsableIff(scope); }
  }

  lemma RelayableIff(m: ConsumedModule, rpc: ConsumedMethod, registry: Registry)
    ensures Relayable(m, rpc, registry) <==> CanBeRelayed(m, rpc, registry)
  {
    AllUsableIff(rpc.scopes);
  }

  lemma ServableIff(m: ConsumedModule, registry: Registry)
    ensures Servable(m, registry) <==> CanBeServed(m, registry)
  {
    OneSegmentIff(m.audience);
    AllUsableIff(m.scopes);
    forall j | 0 <= j < |m.methods|
      ensures Relayable(m, m.methods[j], registry) <==> CanBeRelayed(m, m.methods[j], registry)
    {
      RelayableIff(m, m.methods[j], registry);
    }
  }

  /** What resolves is what keeps these rules, module by module, no two modules
      under one name. */
  lemma ResolvableIff(modules: seq<ConsumedModule>, registry: Registry)
    ensures Resolvable(modules, registry) <==>
            && (forall i :: 0 <= i < |modules| ==> CanBeServed(modules[i], registry))
            && (forall i, j :: 0 <= i < j < |modules| ==> modules[i].audience != modules[j].audience)
  {
    forall i | 0 <= i < |modules| ensures Servable(modules[i], registry) <==> CanBeServed(modules[i], registry) {
      ServableIff(modules[i], registry);
    }
    assert forall m :: m in modules ==> exists i :: 0 <= i < |modules| && modules[i] == m;
  }

  // --- what a resolved declaration holds ---

  /** A path is one method's of one module: different methods, of one module or
      of two, are never at one path. */
  lemma EachMethodHasItsPath(
      modules: seq<ConsumedModule>, registry: Registry, i: nat, j: nat, k: nat, l: nat, x: MethodDescriptor,
      y: MethodDescriptor)
    requires Resolvable(modules, registry)
    requires i < |modules| && k < |modules| && j < |modules[i].methods| && l < |modules[k].methods|
    requires Lookup(registry, modules[i].methods[j].name) == Some(x)
    requires Lookup(registry, modules[k].methods[l].name) == Some(y)
    requires PathOf(modules[i].audience, x) == PathOf(modules[k].audience, y)
    ensures i == k && j == l
  {
    assert Servable(modules[i], registry) && Servable(modules[k], registry);
    assert '/' in RESERVED;
    LookupIsNamed(registry, modules[i].methods[j].name, x);
    LookupIsNamed(registry, modules[k].methods[l].name, y);
    PathsTellApart(modules[i].audience, x, modules[k].audience, y);
    assert RegistryName(modules[i].methods[j].name) == RegistryName(modules[k].methods[l].name);
  }

  /** Every call through a route asks for something, and every scope it asks for
      names an action; a streamed one is bounded; what reaches the page is named
      field by field over the method's own answer, or said to be all of it. */
  lemma RoutesAreSound(modules: seq<ConsumedModule>, registry: Registry, routes: map<string, Route>, path: string)
    requires Resolvable(modules, registry) && IsRouting(routes, modules, registry) && path in routes
    ensures var r := routes[path];
      && RouteScopes(r) != [] && AllUsable(RouteScopes(r))
      && (r.md.streamsAnswers ==>
            && StreamDuration(r.rpc.bounds) ==
                 (if r.rpc.bounds.maxDuration == 0 then 300_000_000_000 else r.rpc.bounds.maxDuration)
            && 0 < StreamDuration(r.rpc.bounds) <= 1_800_000_000_000
            && StreamMessageLimit(r.rpc.bounds) ==
                 (if r.rpc.bounds.maxMessageBytes == 0 then 1_048_576 else r.rpc.bounds.maxMessageBytes)
            && StreamMessageLimit(r.rpc.bounds) > 0)
      && (r.rpc.whole <==> r.rpc.mask == None) && (r.rpc.mask.Some? ==> r.rpc.mask.value.of == r.md.output)
  {
    var r := routes[path];
    RouteIsRelayable(modules, registry, routes, path);
    if r.md.streamsAnswers { AcceptedBoundsHold(r.rpc.bounds); }
  }

  lemma RouteIsRelayable(modules: seq<ConsumedModule>, registry: Registry, routes: map<string, Route>, path: string)
    requires Resolvable(modules, registry) && IsRouting(routes, modules, registry) && path in routes
    ensures Relayable(routes[path].provider, routes[path].rpc, registry) && AllUsable(routes[path].provider.scopes)
    ensures Lookup(registry, routes[path].rpc.name) == Some(routes[path].md)
  {
  }

  /** A route, as it was declared: where it is, what it calls, and what it asks for,
      the method's own scopes where it has any and else the module's, never both. */
  lemma RouteIsAsDeclared(modules: seq<ConsumedModule>, registry: Registry, routes: map<string, Route>, path: string)
    requires Resolvable(modules, registry) && IsRouting(routes, modules, registry) && path in routes
    ensures var r := routes[path];
      && r.provider in modules && r.rpc in r.provider.methods && !r.md.streamsRequests
      && r.md.service + "." + r.md.name in registry && registry[r.md.service + "." + r.md.name] == AMethod(r.md)
      && NamesIt(r.rpc.name, r.md.service + "." + r.md.name)
      && path == "/modules/" + r.provider.audience + "/" + r.md.service + "/" + r.md.name
      && Procedure(r) == "/" + r.md.service + "/" + r.md.name
      && (r.rpc.scopes != [] ==> RouteScopes(r) == r.rpc.scopes)
      && (r.rpc.scopes == [] ==> RouteScopes(r) == r.provider.scopes != [])
  {
    RouteIsRelayable(modules, registry, routes, path);
    var r := routes[path];
    assert Declared(modules, r, path, registry);
    LookupIsNamed(registry, r.rpc.name, r.md);
    RegistryNameIff(r.rpc.name, r.md.service + "." + r.md.name);
  }

  /** Another list of the module's own scopes moves no route, and changes what a call
      asks for only through the methods that declare none. */
  lemma ModuleScopesReachOnlyTheOthers(
      modules: seq<ConsumedModule>, registry: Registry, routes: map<string, Route>, i: nat, scopes: seq<Scope>,
      after: map<string, Route>, path: string)
    requires i < |modules|
    requires IsRouting(routes, modules, registry)
    requires IsRouting(after, modules[i := modules[i].(scopes := scopes)], registry)
    requires forall k, l :: 0 <= k < l < |modules| ==> modules[k].audience != modules[l].audience
    ensures path in routes <==> path in after
    ensures path in routes ==>
              && after[path].rpc == routes[path].rpc && after[path].md == routes[path].md
              && after[path].provider.audience == routes[path].provider.audience
              && (routes[path].rpc.scopes != [] || routes[path].provider != modules[i] ==>
                    RouteScopes(after[path]) == RouteScopes(routes[path]))
              && (routes[path].rpc.scopes == [] && routes[path].provider == modules[i] ==>
                    RouteScopes(after[path]) == scopes)
  {
    var changed := modules[i := modules[i].(scopes := scopes)];
    if path in routes {
      var k := WhoseRoute(modules, registry, routes, path);
      RouteOfTheSame(changed, registry, after, k, routes[path]);
    }
    if path in after {
      var k := WhoseRoute(changed, registry, after, path);
      RouteOfTheSame(modules, registry, routes, k, after[path]);
    }
  }

  lemma WhoseRoute(modules: seq<ConsumedModule>, registry: Registry, routes: map<string, Route>, path: string)
    returns (k: nat)
    requires IsRouting(routes, modules, registry) && path in routes
    ensures k < |modules| && routes[path].provider == modules[k] && Declared(modules, routes[path], path, registry)
  {
    assert Declared(modules, routes[path], path, registry);
    k :| 0 <= k < |modules| && modules[k] == routes[path].provider;
  }

  /** A method of a module with the same name and methods has the same path. */
  lemma RouteOfTheSame(
      modules: seq<ConsumedModule>, registry: Registry, routes: map<string, Route>, k: nat, other: Route)
    requires k < |modules| && IsRouting(routes, modules, registry)
    requires modules[k].audience == other.provider.audience && other.rpc in modules[k].methods
    requires Lookup(registry, other.rpc.name) == Some(other.md)
    requires other.path == PathOf(other.provider.audience, other.md)
    ensures other.path in routes
    ensures routes[other.path] == Route(other.path, modules[k], other.rpc, other.md)
  {
    var m := modules[k];
    assert m in modules && Served(routes, m, registry, |m.methods|);
    var j :| 0 <= j < |m.methods| && m.methods[j] == other.rpc;
    assert IsRoute(routes, m, m.methods[j], registry);
  }

  /** What a declaration is routed to is one thing only. */
  lemma RoutingIsUnique(
      modules: seq<ConsumedModule>, registry: Registry, one: map<string, Route>, other: map<string, Route>)
    requires IsRouting(one, modules, registry) && IsRouting(other, modules, registry)
    ensures one == other
  {
  }
}
