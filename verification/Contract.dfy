/** The contract a solution publishes: what its declaration is held to, at boot
    under one profile and in the artifact under every one. */
module Contract {
  import opened Wrappers
  import opened Text
  import opened AskKey
  import opened Ceiling
  import opened Passthrough

  type Ceilings = map<string, seq<Scope>>

  /** Ceilings by profile, and then by the audience they are asked of. */
  datatype ModuleContract = ModuleContract(ceilings: map<string, Ceilings>)

  datatype Binding = Binding(audience: string, ceiling: seq<Scope>, asked: seq<Scope>)

  datatype EffectiveContract = EffectiveContract(solution: string, profile: string, bindings: seq<Binding>)

  datatype Refusal =
    | NoProfile
    | NoCeiling(audience: string)
    | UnusableCeiling(audience: string, fault: ScopeFault)
    | OutsideCeiling(audience: string, excess: Excess)
    | NotConsumed(audience: string)

  datatype Document = Document(solution: string, audiences: seq<string>, profiles: map<string, Ceilings>)

  datatype ArtifactRefusal =
    | NoSolution
    | ProfileName(profile: string)
    | ProfileRefused(profile: string, refusal: Refusal)
    | NoProfiles

  // --- what is asked of a module ---

  function MethodScopes(methods: seq<ConsumedMethod>): seq<Scope> {
    if methods == [] then [] else MethodScopes(methods[..|methods| - 1]) + methods[|methods| - 1].scopes
  }

  function AskedOf(m: ConsumedModule): seq<Scope> {
    m.scopes + MethodScopes(m.methods)
  }

  method AskedScopes(m: ConsumedModule) returns (asked: seq<Scope>)
    ensures asked == AskedOf(m)
  {
    asked := m.scopes;
    for i := 0 to |m.methods|
      invariant asked == m.scopes + MethodScopes(m.methods[..i])
    {
      assert m.methods[..i + 1][..i] == m.methods[..i];
      asked := asked + m.methods[i].scopes;
    }
    assert m.methods[..|m.methods|] == m.methods;
  }

  /** How many scopes the first n methods declare between them. */
  function Offset(methods: seq<ConsumedMethod>, n: nat): nat
    requires n <= |methods|
  {
    if n == 0 then 0 else Offset(methods, n - 1) + |methods[n - 1].scopes|
  }

  lemma {:induction false} MethodScopesAt(methods: seq<ConsumedMethod>, n: nat, j: nat, k: nat)
    requires j < n <= |methods| && k < |methods[j].scopes|
    ensures |MethodScopes(methods[..n])| == Offset(methods, n) >= Offset(methods, j) + |methods[j].scopes|
    ensures MethodScopes(methods[..n])[Offset(methods, j) + k] == methods[j].scopes[k]
  {
    assert methods[..n][..n - 1] == methods[..n - 1];
    MethodScopesMany(methods, n - 1);
    if j < n - 1 { MethodScopesAt(methods, n - 1, j, k); }
  }

  lemma {:induction false} MethodScopesMany(methods: seq<ConsumedMethod>, n: nat)
    requires n <= |methods|
    ensures |MethodScopes(methods[..n])| == Offset(methods, n)
  {
    if n > 0 {
      assert methods[..n][..n - 1] == methods[..n - 1];
      MethodScopesMany(methods, n - 1);
    }
  }

  /** Place by place: the module's own scopes first, then each method's, in the order
      the methods are declared in, and nothing else. */
  lemma AskedAt(m: ConsumedModule, j: nat, k: nat)
    ensures |AskedOf(m)| == |m.scopes| + Offset(m.methods, |m.methods|)
    ensures AskedOf(m)[..|m.scopes|] == m.scopes
    ensures j < |m.methods| && k < |m.methods[j].scopes| ==>
              var i := |m.scopes| + Offset(m.methods, j) + k;
              i < |AskedOf(m)| && AskedOf(m)[i] == m.methods[j].scopes[k]
  {
    assert m.methods[..|m.methods|] == m.methods;
    MethodScopesMany(m.methods, |m.methods|);
    if j < |m.methods| && k < |m.methods[j].scopes| { MethodScopesAt(m.methods, |m.methods|, j, k); }
  }

  lemma {:induction false} MethodScopesAre(methods: seq<ConsumedMethod>, s: Scope)
    requires s in MethodScopes(methods)
    ensures exists rpc :: rpc in methods && s in rpc.scopes
  {
    if s !in methods[|methods| - 1].scopes { MethodScopesAre(methods[..|methods| - 1], s); }
  }

  /** Asked of a module by the module itself, or by one of its methods. */
  predicate Asks(m: ConsumedModule, s: Scope) {
    s in m.scopes || exists rpc :: rpc in m.methods && s in rpc.scopes
  }

  lemma AsksIff(m: ConsumedModule, s: Scope)
    ensures s in AskedOf(m) <==> Asks(m, s)
  {
    if s in MethodScopes(m.methods) { MethodScopesAre(m.methods, s); }
    if rpc :| rpc in m.methods && s in rpc.scopes { MethodScopesHave(m.methods, rpc, s); }
  }

  /** Whatever a call to one of the module's routes asks for is among it. */
  lemma RouteScopesAreAsked(r: Route, s: Scope)
    requires r.rpc in r.provider.methods && s in RouteScopes(r)
    ensures s in AskedOf(r.provider)
  {
    if r.rpc.scopes != [] {
      MethodScopesHave(r.provider.methods, r.rpc, s);
    }
  }

  lemma {:induction false} MethodScopesHave(methods: seq<ConsumedMethod>, rpc: ConsumedMethod, s: Scope)
    requires rpc in methods && s in rpc.scopes
    ensures s in MethodScopes(methods)
  {
    if rpc != methods[|methods| - 1] { MethodScopesHave(methods[..|methods| - 1], rpc, s); }
  }

  // --- the rules, for one profile ---

  /** A module's ceiling is there, is well formed, and covers all it is asked. */
  predicate HeldTo(m: ConsumedModule, ceilings: Ceilings) {
    && m.audience in ceilings && AllUsable(ceilings[m.audience])
    && forall s :: s in AskedOf(m) ==> Accepts(s, ceilings[m.audience])
  }

  predicate Consumed(modules: seq<ConsumedModule>, audience: string) {
    exists m :: m in modules && m.audience == audience
  }

  function CeilingsOf(contract: ModuleContract, profile: string): Ceilings {
    if profile in contract.ceilings then contract.ceilings[profile] else map[]
  }

  predicate Meets(modules: seq<ConsumedModule>, contract: ModuleContract, profile: string) {
    var ceilings := CeilingsOf(contract, profile);
    && (forall m :: m in modules ==> HeldTo(m, ceilings))
    && (forall audience :: audience in ceilings ==> Consumed(modules, audience))
  }

  /** What a refusal says is so. */
  ghost predicate Breaks(modules: seq<ConsumedModule>, contract: ModuleContract, profile: string, refusal: Refusal) {
    var ceilings := CeilingsOf(contract, profile);
    match refusal
    case NoProfile => profile !in contract.ceilings && modules != []
    case NoCeiling(audience) => Consumed(modules, audience) && audience !in ceilings
    case UnusableCeiling(audience, fault) =>
      Consumed(modules, audience) && audience in ceilings && exists s :: s in ceilings[audience] && Wrong(s, fault)
    case OutsideCeiling(audience, excess) =>
      && audience in ceilings
      && exists m :: m in modules && m.audience == audience && AsksBeyond(m, ceilings[audience], excess)
    case NotConsumed(audience) => audience in ceilings && !Consumed(modules, audience)
  }

  ghost predicate AsksBeyond(m: ConsumedModule, ceiling: seq<Scope>, excess: Excess) {
    exists s :: s in AskedOf(m) && !Accepts(s, ceiling) && s.kind == excess.kind
  }

  function BindingOf(m: ConsumedModule, ceilings: Ceilings): Binding
    requires m.audience in ceilings
  {
    Binding(m.audience, ceilings[m.audience], AskedOf(m))
  }

  function BindingsOf(modules: seq<ConsumedModule>, ceilings: Ceilings): seq<Binding>
    requires forall m :: m in modules ==> m.audience in ceilings
  {
    seq(|modules|, i requires 0 <= i < |modules| => BindingOf(modules[i], ceilings))
  }

  function AudienceOf(b: Binding): string { b.audience }

  /** A profile's bindings, one for each module, in the order of their audiences. */
  ghost predicate Publishes(bindings: seq<Binding>, modules: seq<ConsumedModule>, ceilings: Ceilings) {
    && (forall m :: m in modules ==> m.audience in ceilings)
    && multiset(bindings) == multiset(BindingsOf(modules, ceilings)) && Ascending(bindings, AudienceOf)
  }

  method CheckAsked(asked: seq<Scope>, ceiling: seq<Scope>) returns (excess: Option<Excess>)
    ensures excess == None <==> forall s :: s in asked ==> Accepts(s, ceiling)
    ensures excess.Some? ==> exists s :: s in asked && !Accepts(s, ceiling) && s.kind == excess.value.kind
  {
    for i := 0 to |asked|
      invariant forall k :: 0 <= k < i ==> Accepts(asked[k], ceiling)
    {
      var within := WithinCeiling(asked[i], ceiling);
      if within.Err? {
        return Some(within.error);
      }
    }
    return None;
  }

  method CheckModule(m: ConsumedModule, ceilings: Ceilings) returns (r: Result<Binding, Refusal>)
    ensures r.Ok? <==> HeldTo(m, ceilings)
    ensures r.Ok? ==> r.value == BindingOf(m, ceilings)
    ensures forall modules, contract, profile ::
              r.Err? && m in modules && CeilingsOf(contract, profile) == ceilings ==>
                Breaks(modules, contract, profile, r.error)
  {
    if m.audience !in ceilings {
      return Err(NoCeiling(m.audience));
    }
    var ceiling := ceilings[m.audience];
    var fault := CheckScopes(ceiling);
    if fault.Some? {
      return Err(UnusableCeiling(m.audience, fault.value));
    }
    var asked := AskedScopes(m);
    var excess := CheckAsked(asked, ceiling);
    if excess.Some? {
      assert AsksBeyond(m, ceiling, excess.value);
      return Err(OutsideCeiling(m.audience, excess.value));
    }
    return Ok(Binding(m.audience, ceiling, asked));
  }

  /** A ceiling for an audience nobody consumes, if there is one. */
  method FindUnconsumed(modules: seq<ConsumedModule>, ceilings: Ceilings) returns (found: Option<string>)
    ensures found == None <==> forall audience :: audience in ceilings ==> Consumed(modules, audience)
    ensures found.Some? ==> found.value in ceilings && !Consumed(modules, found.value)
  {
    var rest := ceilings.Keys;
    while rest != {}
      invariant rest <= ceilings.Keys
      invariant forall audience :: audience in ceilings && audience !in rest ==> Consumed(modules, audience)
    {
      var audience :| audience in rest;
      if !Consumed(modules, audience) {
        return Some(audience);
      }
      rest := rest - {audience};
    }
    return None;
  }

  /** The whole of the rules, for one profile: met, and the bindings that profile
      publishes; or not, and something that breaks them. */
  method CheckContract(modules: seq<ConsumedModule>, contract: ModuleContract, profile: string)
    returns (r: Result<seq<Binding>, Refusal>)
    ensures r.Ok? <==> Meets(modules, contract, profile)
    ensures r.Ok? ==> Publishes(r.value, modules, CeilingsOf(contract, profile))
    ensures r.Err? ==> Breaks(modules, contract, profile, r.error)
  {
    var ceilings := CeilingsOf(contract, profile);
    if profile !in contract.ceilings && |modules| > 0 {
      assert !HeldTo(modules[0], ceilings);
      return Err(NoProfile);
    }
    var bindings: seq<Binding> := [];
    for i := 0 to |modules|
      invariant |bindings| == i
      invariant forall k :: 0 <= k < i ==>
                  HeldTo(modules[k], ceilings) && bindings[k] == BindingOf(modules[k], ceilings)
    {
      var checked := CheckModule(modules[i], ceilings);
      if checked.Err? {
        return Err(checked.error);
      }
      bindings := bindings + [checked.value];
    }
    assert bindings == BindingsOf(modules, ceilings);
    var unconsumed := FindUnconsumed(modules, ceilings);
    if unconsumed.Some? {
      return Err(NotConsumed(unconsumed.value));
    }
    return Ok(Sort(bindings, AudienceOf));
  }

  // --- the boot, and the artifact ---

  predicate Allows(modules: seq<ConsumedModule>, contract: ModuleContract, profile: string) {
    contract.ceilings == map[] || Meets(modules, contract, profile)
  }

  /** The contract a process publishes under the one profile it runs in. One that
      declares no ceiling at all is bounded by the authority alone. */
  method ResolveContract(solution: string, modules: seq<ConsumedModule>, contract: ModuleContract, profile: string)
    returns (r: Result<EffectiveContract, Refusal>)
    ensures r.Ok? <==> Allows(modules, contract, profile)
    ensures r.Ok? ==> r.value.solution == solution && r.value.profile == profile
    ensures r.Ok? && contract.ceilings == map[] ==> r.value.bindings == []
    ensures r.Ok? && contract.ceilings != map[] ==> Publishes(r.value.bindings, modules, CeilingsOf(contract, profile))
    ensures r.Err? ==> Breaks(modules, contract, profile, r.error)
  {
    if |contract.ceilings| == 0 {
      return Ok(EffectiveContract(solution, profile, []));
    }
    var checked := CheckContract(modules, contract, profile);
    match checked {
      case Err(refusal) => r := Err(refusal);
      case Ok(bindings) => r := Ok(EffectiveContract(solution, profile, bindings));
    }
  }

  /** A declaration a process boots with, under its profile: its routes resolve, and
      then its contract does. */
  predicate Boots(modules: seq<ConsumedModule>, registry: Registry, contract: ModuleContract, profile: string) {
    Resolvable(modules, registry) && Allows(modules, contract, profile)
  }

  datatype BootRefusal = NoRoutes(fault: Fault) | NoContract(refusal: Refusal)

  method Boot(
      solution: string, modules: seq<ConsumedModule>, registry: Registry, contract: ModuleContract, profile: string)
    returns (r: Result<(map<string, Route>, EffectiveContract), BootRefusal>)
    ensures r.Ok? <==> Boots(modules, registry, contract, profile)
    ensures r.Ok? ==> IsRouting(r.value.0, modules, registry)
    ensures r.Ok? && contract.ceilings != map[] ==>
              Publishes(r.value.1.bindings, modules, CeilingsOf(contract, profile))
    ensures r.Err? && r.error.NoRoutes? ==> Blames(modules, registry, r.error.fault)
    ensures r.Err? && r.error.NoContract? ==>
              Resolvable(modules, registry) && Breaks(modules, contract, profile, r.error.refusal)
  {
    var routes := ResolvePassthrough(modules, registry);
    if routes.Err? {
      return Err(NoRoutes(routes.error));
    }
    var resolved := ResolveContract(solution, modules, contract, profile);
    if resolved.Err? {
      return Err(NoContract(resolved.error));
    }
    return Ok((routes.value, resolved.value));
  }

  /** The rules of a profile, in what scopes stand for: every module consumed has a
      ceiling of scopes that could be asked for, everything asked of it lies inside
      one single entry of that ceiling, and every ceiling is of a module consumed. */
  ghost predicate KeepsWithin(modules: seq<ConsumedModule>, contract: ModuleContract, profile: string) {
    && (modules != [] ==> profile in contract.ceilings)
    && (profile in contract.ceilings ==>
          var ceilings := contract.ceilings[profile];
          && (forall m :: m in modules ==> m.audience in ceilings && KeepsWithinOne(m, ceilings[m.audience]))
          && (forall audience :: audience in ceilings ==> exists m :: m in modules && m.audience == audience))
  }

  ghost predicate KeepsWithinOne(m: ConsumedModule, ceiling: seq<Scope>) {
    && (forall entry :: entry in ceiling ==> CanBeAsked(entry))
    && (forall s :: Asks(m, s) ==> InsideOne(s, ceiling))
  }

  lemma HeldToIff(m: ConsumedModule, registry: Registry, ceilings: Ceilings)
    requires Servable(m, registry)
    ensures HeldTo(m, ceilings) <==> m.audience in ceilings && KeepsWithinOne(m, ceilings[m.audience])
  {
    if m.audience in ceilings {
      var ceiling := ceilings[m.audience];
      AllUsableIff(ceiling);
      forall s ensures s in AskedOf(m) <==> Asks(m, s) { AsksIff(m, s); }
      forall s | Asks(m, s) ensures Accepts(s, ceiling) <==> InsideOne(s, ceiling) {
        AskedIsUsable(m, registry, s);
        DecidesContainment(s, ceiling);
      }
    }
  }

  lemma AskedIsUsable(m: ConsumedModule, registry: Registry, s: Scope)
    requires Servable(m, registry) && Asks(m, s)
    ensures Usable(s)
  {
    if s !in m.scopes {
      var rpc :| rpc in m.methods && s in rpc.scopes;
      assert Relayable(m, rpc, registry);
    }
  }

  lemma MeetsIff(modules: seq<ConsumedModule>, registry: Registry, contract: ModuleContract, profile: string)
    requires Resolvable(modules, registry)
    ensures Meets(modules, contract, profile) <==> KeepsWithin(modules, contract, profile)
  {
    var ceilings := CeilingsOf(contract, profile);
    forall m | m in modules
      ensures HeldTo(m, ceilings) <==> m.audience in ceilings && KeepsWithinOne(m, ceilings[m.audience])
    {
      HeldToIff(m, registry, ceilings);
    }
    if modules != [] { assert modules[0] in modules; }
  }

  /** So a process boots with a declaration exactly when its routes resolve and,
      where it declares a ceiling at all, whatever it asks for under its profile is
      granted whole by one entry of the ceiling declared for it there. */
  lemma BootsIff(modules: seq<ConsumedModule>, registry: Registry, contract: ModuleContract, profile: string)
    ensures Boots(modules, registry, contract, profile) <==>
            && Resolvable(modules, registry)
            && (contract.ceilings != map[] ==> KeepsWithin(modules, contract, profile))
  {
    if Resolvable(modules, registry) { MeetsIff(modules, registry, contract, profile); }
  }

  /** The declarations an artifact is rendered for; validName is the rule for the
      name of a configuration profile, which is not this runtime's. */
  predicate Renders(id: string, contract: ModuleContract, modules: seq<ConsumedModule>, validName: string -> bool) {
    && !Blank(id)
    && (forall profile :: profile in contract.ceilings ==> validName(profile) && Meets(modules, contract, profile))
    && (modules == [] || contract.ceilings != map[])
  }

  /** The rules of a profile as an artifact is held to them: as KeepsWithin, but each
      ask spanned by one entry, whether or not it names an action. */
  ghost predicate Spanned(modules: seq<ConsumedModule>, ceilings: Ceilings) {
    && (forall m :: m in modules ==> m.audience in ceilings && SpannedOne(m, ceilings[m.audience]))
    && (forall audience :: audience in ceilings ==> exists m :: m in modules && m.audience == audience)
  }

  ghost predicate SpannedOne(m: ConsumedModule, ceiling: seq<Scope>) {
    && (forall entry :: entry in ceiling ==> CanBeAsked(entry))
    && (forall s :: Asks(m, s) ==> exists i :: 0 <= i < |ceiling| && Spans(ceiling[i], s))
  }

  lemma SpannedIff(m: ConsumedModule, ceilings: Ceilings)
    ensures HeldTo(m, ceilings) <==> m.audience in ceilings && SpannedOne(m, ceilings[m.audience])
  {
    if m.audience in ceilings {
      var ceiling := ceilings[m.audience];
      AllUsableIff(ceiling);
      forall s
        ensures s in AskedOf(m) <==> Asks(m, s)
        ensures Accepts(s, ceiling) <==> exists i :: 0 <= i < |ceiling| && Spans(ceiling[i], s)
      {
        AsksIff(m, s);
        AcceptsIff(s, ceiling);
      }
    }
  }

  lemma MeetsIffSpanned(modules: seq<ConsumedModule>, contract: ModuleContract, profile: string)
    requires profile in contract.ceilings
    ensures Meets(modules, contract, profile) <==> Spanned(modules, contract.ceilings[profile])
  {
    var ceilings := CeilingsOf(contract, profile);
    forall m | m in modules
      ensures HeldTo(m, ceilings) <==> m.audience in ceilings && SpannedOne(m, ceilings[m.audience])
    {
      SpannedIff(m, ceilings);
    }
    assert forall audience :: Consumed(modules, audience) <==> exists m :: m in modules && m.audience == audience;
  }

  /** An artifact is rendered exactly when its id is not blank, every profile it
      declares has a usable name and keeps those rules, and it declares one, or
      consumes nothing. */
  lemma RendersIff(id: string, contract: ModuleContract, modules: seq<ConsumedModule>, validName: string -> bool)
    ensures Renders(id, contract, modules, validName) <==>
            && Trimmed(id) != ""
            && (forall profile :: profile in contract.ceilings ==>
                  validName(profile) && Spanned(modules, contract.ceilings[profile]))
            && (modules == [] || contract.ceilings != map[])
  {
    BlankIff(id);
    forall profile | profile in contract.ceilings
      ensures Meets(modules, contract, profile) <==> Spanned(modules, contract.ceilings[profile])
    {
      MeetsIffSpanned(modules, contract, profile);
    }
  }

  ghost predicate Refuses(
      id: string, contract: ModuleContract, modules: seq<ConsumedModule>, validName: string -> bool, e: ArtifactRefusal)
  {
    match e
    case NoSolution => Blank(id)
    case ProfileName(profile) => profile in contract.ceilings && !validName(profile)
    case ProfileRefused(profile, refusal) => profile in contract.ceilings && Breaks(modules, contract, profile, refusal)
    case NoProfiles => contract.ceilings == map[] && modules != []
  }

  function AudiencesOf(modules: seq<ConsumedModule>): seq<string> {
    seq(|modules|, i requires 0 <= i < |modules| => modules[i].audience)
  }

  /** Every declared profile, by the boot's own rules, in whatever order the map
      gives them. */
  method CheckProfiles(contract: ModuleContract, modules: seq<ConsumedModule>, validName: string -> bool)
    returns (r: Result<map<string, Ceilings>, ArtifactRefusal>)
    ensures r.Ok? <==>
              forall profile :: profile in contract.ceilings ==> validName(profile) && Meets(modules, contract, profile)
    ensures r.Ok? ==> r.value == contract.ceilings
    ensures r.Err? ==> (r.error.ProfileName? || r.error.ProfileRefused?) && forall id ::
              Refuses(id, contract, modules, validName, r.error)
  {
    var profiles: map<string, Ceilings> := map[];
    var rest := contract.ceilings.Keys;
    while rest != {}
      invariant rest <= contract.ceilings.Keys && profiles.Keys == contract.ceilings.Keys - rest
      invariant forall p :: p in profiles ==>
                  profiles[p] == contract.ceilings[p] && validName(p) && Meets(modules, contract, p)
    {
      var profile :| profile in rest;
      if !validName(profile) {
        return Err(ProfileName(profile));
      }
      var checked := CheckContract(modules, contract, profile);
      if checked.Err? {
        return Err(ProfileRefused(profile, checked.error));
      }
      profiles := profiles[profile := contract.ceilings[profile]];
      rest := rest - {profile};
    }
    return Ok(profiles);
  }

  method ContractArtifact(id: string, contract: ModuleContract, modules: seq<ConsumedModule>, validName: string -> bool)
    returns (r: Result<Document, ArtifactRefusal>)
    ensures r.Ok? <==> Renders(id, contract, modules, validName)
    ensures r.Ok? ==> r.value.solution == id && r.value.profiles == contract.ceilings
    ensures r.Ok? ==>
              Ascending(r.value.audiences, Same) && multiset(r.value.audiences) == multiset(AudiencesOf(modules))
    ensures r.Err? ==> Refuses(id, contract, modules, validName, r.error)
  {
    if Blank(id) {
      return Err(NoSolution);
    }
    var audiences: seq<string> := [];
    for i := 0 to |modules|
      invariant |audiences| == i && forall k :: 0 <= k < i ==> audiences[k] == modules[k].audience
    {
      audiences := audiences + [modules[i].audience];
    }
    assert audiences == AudiencesOf(modules);
    var checked := CheckProfiles(contract, modules, validName);
    if checked.Err? {
      return Err(checked.error);
    }
    if |modules| > 0 && |checked.value| == 0 {
      return Err(NoProfiles);
    }
    return Ok(Document(id, Sort(audiences, Same), checked.value));
  }

  /** A declaration an artifact is rendered for boots under a profile exactly when
      its routes resolve, which rendering does not look at, and the profile is one
      it declares, or it consumes nothing. */
  lemma RenderedBootsIff(
      id: string, contract: ModuleContract, modules: seq<ConsumedModule>, validName: string -> bool, registry: Registry,
      profile: string)
    requires Renders(id, contract, modules, validName)
    ensures Boots(modules, registry, contract, profile) <==>
            Resolvable(modules, registry) && (profile in contract.ceilings || modules == [])
  {
    if contract.ceilings != map[] && profile !in contract.ceilings {
      UndeclaredProfileIsRefused(modules, contract, profile);
    }
  }

  /** And one that boots under every profile it declares, given a usable id and
      usable profile names, is rendered exactly when it declares a ceiling or
      consumes nothing. One that declares none and consumes something boots under
      any profile, publishing nothing. */
  lemma BootedIsRenderedIff(
      id: string, contract: ModuleContract, modules: seq<ConsumedModule>, validName: string -> bool, registry: Registry)
    requires !Blank(id) && forall profile :: profile in contract.ceilings ==> validName(profile)
    requires Resolvable(modules, registry)
    requires forall profile :: profile in contract.ceilings ==> Boots(modules, registry, contract, profile)
    ensures Renders(id, contract, modules, validName) <==> contract.ceilings != map[] || modules == []
    ensures contract.ceilings == map[] ==> forall profile :: Boots(modules, registry, contract, profile)
  {
    assert forall profile :: Boots(modules, registry, contract, profile) ==> Allows(modules, contract, profile);
  }

  /** A contract that caps the one module it consumes, under one profile. */
  function OneCeiling(profile: string, m: ConsumedModule, ceiling: seq<Scope>): ModuleContract {
    ModuleContract(map[profile := map[m.audience := ceiling]])
  }

  lemma CappedIsRendered(
      id: string, profile: string, m: ConsumedModule, ceiling: seq<Scope>,
      validName: string -> bool, registry: Registry)
    requires !Blank(id) && validName(profile) && AllUsable(ceiling)
    requires forall s :: s in AskedOf(m) ==> Accepts(s, ceiling)
    requires !Servable(m, registry)
    ensures Renders(id, OneCeiling(profile, m, ceiling), [m], validName)
    ensures !Boots([m], registry, OneCeiling(profile, m, ceiling), profile)
  {
    assert m in [m] && HeldTo(m, map[m.audience := ceiling]);
  }

  /** Rendered, and never booted: a module that declares no method, under a ceiling
      it asks for as it stands. */
  lemma NoMethodsIsRendered(
      id: string, profile: string, m: ConsumedModule, validName: string -> bool, registry: Registry)
    requires !Blank(id) && validName(profile) && m.methods == [] && AllUsable(m.scopes)
    ensures Renders(id, OneCeiling(profile, m, m.scopes), [m], validName)
    ensures !Boots([m], registry, OneCeiling(profile, m, m.scopes), profile)
  {
    forall s | s in AskedOf(m) ensures Accepts(s, m.scopes) { assert Covers(s, s); }
    CappedIsRendered(id, profile, m, m.scopes, validName, registry);
  }

  /** And so is any module that asks for a scope naming no action, under a ceiling
      of that kind: nothing on the way to an artifact refuses the ask. */
  lemma ActionlessIsRendered(
      id: string, profile: string, m: ConsumedModule, kind: string, validName: string -> bool, registry: Registry)
    requires !Blank(id) && validName(profile) && !Padded(kind)
    requires m.scopes == [Scope(kind, [], [])] && forall rpc :: rpc in m.methods ==> rpc.scopes == []
    ensures Renders(id, OneCeiling(profile, m, [Scope(kind, ["read"], [])]), [m], validName)
    ensures !Boots([m], registry, OneCeiling(profile, m, [Scope(kind, ["read"], [])]), profile)
  {
    var ceiling := [Scope(kind, ["read"], [])];
    NoMethodAsks(m.methods);
    assert !Usable(m.scopes[0]) && Covers(m.scopes[0], ceiling[0]);
    assert !Padded("read") && Usable(ceiling[0]);
    CappedIsRendered(id, profile, m, ceiling, validName, registry);
  }

  lemma {:induction false} NoMethodAsks(methods: seq<ConsumedMethod>)
    requires forall rpc :: rpc in methods ==> rpc.scopes == []
    ensures MethodScopes(methods) == []
  {
    if methods != [] { NoMethodAsks(methods[..|methods| - 1]); }
  }

  /** Under a profile it does not declare, a contract that declares some allows only
      a solution that consumes nothing. */
  lemma UndeclaredProfileIsRefused(modules: seq<ConsumedModule>, contract: ModuleContract, profile: string)
    requires contract.ceilings != map[] && profile !in contract.ceilings
    ensures Allows(modules, contract, profile) <==> modules == []
  {
    if modules != [] {
      assert modules[0] in modules && !HeldTo(modules[0], CeilingsOf(contract, profile));
    }
  }

  // --- what a published contract says ---

  lemma BindingIsOfAModule(bindings: seq<Binding>, modules: seq<ConsumedModule>, ceilings: Ceilings, b: Binding)
    requires Publishes(bindings, modules, ceilings)
    ensures b in bindings <==> exists m :: m in modules && b == BindingOf(m, ceilings)
  {
    var listed := BindingsOf(modules, ceilings);
    assert b in bindings <==> b in multiset(bindings);
    assert b in listed <==> b in multiset(listed);
    if b in listed {
      var i :| 0 <= i < |listed| && listed[i] == b;
      assert modules[i] in modules;
    }
    if m :| m in modules && b == BindingOf(m, ceilings) {
      var i :| 0 <= i < |modules| && modules[i] == m;
      assert listed[i] == b;
    }
  }

  ghost predicate DistinctAudiences(modules: seq<ConsumedModule>) {
    forall i, j :: 0 <= i < j < |modules| ==> modules[i].audience != modules[j].audience
  }

  /** With distinct audiences no binding shares one with another. */
  lemma BindingsAreDistinct(bindings: seq<Binding>, modules: seq<ConsumedModule>, ceilings: Ceilings)
    requires Publishes(bindings, modules, ceilings) && DistinctAudiences(modules)
    ensures Distinct(bindings, AudienceOf) && |bindings| == |modules|
  {
    RearrangedIsDistinct(BindingsOf(modules, ceilings), bindings, AudienceOf);
  }

  /** A profile that is met caps exactly the modules consumed: its ceilings'
      audiences, the bindings' and the modules' are the same. */
  lemma ExactlyTheConsumedAreCapped(
      bindings: seq<Binding>, modules: seq<ConsumedModule>, contract: ModuleContract, profile: string, audience: string)
    requires Meets(modules, contract, profile) && Publishes(bindings, modules, CeilingsOf(contract, profile))
    ensures audience in CeilingsOf(contract, profile) <==> Consumed(modules, audience)
    ensures Consumed(modules, audience) <==> exists b :: b in bindings && b.audience == audience
    ensures DistinctAudiences(modules) ==> Distinct(bindings, AudienceOf) && |bindings| == |modules|
  {
    var ceilings := CeilingsOf(contract, profile);
    if m :| m in modules && m.audience == audience {
      assert HeldTo(m, ceilings);
      BindingIsOfAModule(bindings, modules, ceilings, BindingOf(m, ceilings));
    }
    if b :| b in bindings && b.audience == audience {
      BindingIsOfAModule(bindings, modules, ceilings, b);
    }
    if DistinctAudiences(modules) {
      BindingsAreDistinct(bindings, modules, ceilings);
    }
  }

  /** The published bindings do not depend on the order the modules are declared
      in, nor on how ties would have been sorted. */
  lemma OrderDoesNotShow(
      one: seq<Binding>, other: seq<Binding>, modules: seq<ConsumedModule>, shuffled: seq<ConsumedModule>,
      ceilings: Ceilings)
    requires DistinctAudiences(modules) && DistinctAudiences(shuffled)
    requires forall m :: m in modules <==> m in shuffled
    requires Publishes(one, modules, ceilings) && Publishes(other, shuffled, ceilings)
    ensures one == other
  {
    BindingsAreDistinct(one, modules, ceilings);
    BindingsAreDistinct(other, shuffled, ceilings);
    forall b ensures b in one <==> b in other {
      BindingIsOfAModule(one, modules, ceilings, b);
      BindingIsOfAModule(other, shuffled, ceilings, b);
    }
    AscendingIsUnique(one, other, AudienceOf);
  }

  // --- what a running process asks for ---

  /** Under a contract that was met, whatever any call through any route asks for
      is published as asked, and lies inside one single entry of the ceiling
      published for the module it is asked of; and it does ask for something. */
  lemma EveryAskIsPublished(
      modules: seq<ConsumedModule>, registry: Registry, routes: map<string, Route>, contract: ModuleContract,
      profile: string,
      bindings: seq<Binding>, path: string, s: Scope)
    requires Resolvable(modules, registry) && IsRouting(routes, modules, registry) && path in routes
    requires Meets(modules, contract, profile) && Publishes(bindings, modules, CeilingsOf(contract, profile))
    requires s in if routes[path].rpc.scopes == [] then routes[path].provider.scopes else routes[path].rpc.scopes
    ensures s.actions != [] && s in RouteScopes(routes[path])
    ensures exists b ::
              b in bindings && b.audience == routes[path].provider.audience && s in b.asked && InsideOne(s, b.ceiling)
  {
    var r := routes[path];
    var ceilings := CeilingsOf(contract, profile);
    RoutesAreSound(modules, registry, routes, path);
    assert Declared(modules, r, path, registry);
    RouteScopesAreAsked(r, s);
    assert HeldTo(r.provider, ceilings);
    DecidesContainment(s, ceilings[r.provider.audience]);
    BindingIsOfAModule(bindings, modules, ceilings, BindingOf(r.provider, ceilings));
  }
}
