/** Declarations and asks are frozen: deep copies taken where the caller hands
    them over, so that nothing written later through the caller's own maps,
    slices and backing arrays is seen.

    A predicate or function over a heap value takes the set of objects it may
    rest on. */
module Frozen {
  import opened Wrappers
  import opened AskKey
  import opened StreamBounds
  import opened Passthrough
  import opened Contract

  // --- values in the heap ---

  /** A slice: a stretch of a backing array that others may also hold. */
  datatype RawSlice<T> = Nil | Slice(data: array<T>, from: nat, to: nat)

  type Strings = s: RawSlice<string> | s.Slice? ==> s.from <= s.to <= s.data.Length witness Nil
  type Scopes = s: RawSlice<HeapScope> | s.Slice? ==> s.from <= s.to <= s.data.Length witness Nil
  type Methods = s: RawSlice<HeapMethod> | s.Slice? ==> s.from <= s.to <= s.data.Length witness Nil

  datatype HeapScope = HeapScope(kind: string, actions: Strings, ids: Strings)

  datatype HeapMethod = HeapMethod(
    name: string, scopes: Scopes, mask: Option<ResponseMask>, whole: bool, pin: Option<string>, bounds: Bounds)

  datatype HeapModule = HeapModule(
    audience: string, scopes: Scopes, methods: Methods, group: string, endpointKey: string, bindingKey: string)

  class Audiences {
    var entries: map<string, Scopes>
    constructor (entries: map<string, Scopes>)
      ensures this.entries == entries
    {
      this.entries := entries;
    }
  }

  class Profiles {
    var entries: map<string, Audiences?>
    constructor (entries: map<string, Audiences?>)
      ensures this.entries == entries
    {
      this.entries := entries;
    }
  }

  ghost function Backing<T>(s: RawSlice<T>): set<object> {
    if s.Nil? then {} else {s.data}
  }

  function Elements<T>(s: RawSlice<T>): seq<T>
    requires s.Slice? ==> s.from <= s.to <= s.data.Length
    reads Backing(s)
  {
    if s.Nil? then [] else s.data[s.from..s.to]
  }

  // --- what they mean ---

  ghost predicate ScopeIn(h: HeapScope, repr: set<object>) {
    Backing(h.actions) <= repr && Backing(h.ids) <= repr
  }

  function ScopeOf(h: HeapScope, ghost repr: set<object>): Scope
    requires ScopeIn(h, repr)
    reads repr
  {
    Scope(h.kind, Elements(h.actions), Elements(h.ids))
  }

  ghost predicate ScopesIn(s: Scopes, repr: set<object>)
    reads repr
  {
    Backing(s) <= repr && forall h :: h in Elements(s) ==> ScopeIn(h, repr)
  }

  function ScopesOf(s: Scopes, ghost repr: set<object>): (r: seq<Scope>)
    requires ScopesIn(s, repr)
    reads repr
  {
    seq(|Elements(s)|, i requires 0 <= i < |Elements(s)| && ScopesIn(s, repr) reads repr =>
          ScopeOf(Elements(s)[i], repr))
  }

  ghost predicate AudiencesIn(a: Audiences?, repr: set<object>)
    reads repr
  {
    a != null ==> a in repr && forall k :: k in a.entries ==> ScopesIn(a.entries[k], repr)
  }

  ghost function CeilingsIn(a: Audiences?, repr: set<object>): Ceilings
    requires AudiencesIn(a, repr)
    reads repr
  {
    if a == null then map[] else map k | k in a.entries :: ScopesOf(a.entries[k], repr)
  }

  ghost predicate ProfilesIn(p: Profiles?, repr: set<object>)
    reads repr
  {
    p != null ==> p in repr && forall k :: k in p.entries ==> AudiencesIn(p.entries[k], repr)
  }

  ghost function ContractOf(p: Profiles?, repr: set<object>): ModuleContract
    requires ProfilesIn(p, repr)
    reads repr
  {
    ModuleContract(if p == null then map[] else map k | k in p.entries :: CeilingsIn(p.entries[k], repr))
  }

  ghost predicate MethodsIn(s: Methods, repr: set<object>)
    reads repr
  {
    Backing(s) <= repr && forall h :: h in Elements(s) ==> ScopesIn(h.scopes, repr)
  }

  ghost function MethodOf(h: HeapMethod, repr: set<object>): ConsumedMethod
    requires ScopesIn(h.scopes, repr)
    reads repr
  {
    ConsumedMethod(h.name, ScopesOf(h.scopes, repr), h.mask, h.whole, h.pin, h.bounds)
  }

  ghost function MethodsOf(s: Methods, repr: set<object>): seq<ConsumedMethod>
    requires MethodsIn(s, repr)
    reads repr
  {
    seq(|Elements(s)|, i requires 0 <= i < |Elements(s)| && MethodsIn(s, repr) reads repr =>
          MethodOf(Elements(s)[i], repr))
  }

  ghost predicate ModuleIn(m: HeapModule, repr: set<object>)
    reads repr
  {
    ScopesIn(m.scopes, repr) && MethodsIn(m.methods, repr)
  }

  ghost function ModuleOf(m: HeapModule, repr: set<object>): ConsumedModule
    requires ModuleIn(m, repr)
    reads repr
  {
    ConsumedModule(
      m.audience, ScopesOf(m.scopes, repr), MethodsOf(m.methods, repr), m.group, m.endpointKey, m.bindingKey)
  }

  ghost predicate ModulesIn(ms: seq<HeapModule>, repr: set<object>)
    reads repr
  {
    forall m :: m in ms ==> ModuleIn(m, repr)
  }

  ghost function ModulesOf(ms: seq<HeapModule>, repr: set<object>): seq<ConsumedModule>
    requires ModulesIn(ms, repr)
    reads repr
  {
    seq(|ms|, i requires 0 <= i < |ms| && ModulesIn(ms, repr) reads repr => ModuleOf(ms[i], repr))
  }

  // --- the copies ---

  /** append([]string(nil), xs...): nothing of nothing, or an array of its own. */
  method FrozenStrings(xs: Strings) returns (copy: Strings)
    ensures fresh(Backing(copy)) && Elements(copy) == Elements(xs)
  {
    if xs.Nil? || xs.from == xs.to {
      return Nil;
    }
    var data := new string[xs.to - xs.from](_ => "");
    for i := 0 to data.Length
      invariant fresh(data) && data[..i] == xs.data[xs.from..xs.from + i]
      modifies data
    {
      data[i] := xs.data[xs.from + i];
    }
    copy := Slice(data, 0, data.Length);
  }

  method FrozenScope(h: HeapScope, ghost callers: set<object>) returns (copy: HeapScope, ghost repr: set<object>)
    requires ScopeIn(h, callers)
    ensures fresh(repr) && ScopeIn(copy, repr) && ScopeOf(copy, repr) == ScopeOf(h, callers)
  {
    var actions := FrozenStrings(h.actions);
    var ids := FrozenStrings(h.ids);
    copy, repr := HeapScope(h.kind, actions, ids), Backing(actions) + Backing(ids);
  }

  method CopyScope(
      s: Scopes, i: nat, data: array<HeapScope>, ghost callers: set<object>, ghost parts: set<object>,
      ghost asked: seq<Scope>)
    returns (ghost more: set<object>)
    requires s.Slice? && ScopesIn(s, callers) && ScopesOf(s, callers) == asked && i < s.to - s.from == data.Length
    requires data !in callers && data !in parts && Copied(data[..i], asked, parts)
    modifies data
    ensures fresh(more - parts) && data !in more && Copied(data[..i + 1], asked, more)
  {
    assert s.data[s.from + i] == Elements(s)[i];
    var h, own := FrozenScope(s.data[s.from + i], callers);
    CopiedStays(data[..i], asked, parts, own);
    more := parts + own;
    data[i] := h;
    assert data[..i + 1] == data[..i] + [h];
  }

  method FrozenScopes(s: Scopes, ghost callers: set<object>) returns (copy: Scopes, ghost repr: set<object>)
    requires ScopesIn(s, callers)
    ensures fresh(repr) && ScopesIn(copy, repr) && ScopesOf(copy, repr) == ScopesOf(s, callers)
    ensures copy.Nil? <==> s.Nil?
  {
    if s.Nil? {
      return Nil, {};
    }
    ghost var asked := ScopesOf(s, callers);
    var data := new HeapScope[s.to - s.from](_ => HeapScope("", Nil, Nil));
    ghost var parts: set<object> := {};
    for i := 0 to data.Length
      invariant fresh(parts) && data !in parts && Copied(data[..i], asked, parts)
      invariant ScopesIn(s, callers) && ScopesOf(s, callers) == asked
      modifies data
    {
      parts := CopyScope(s, i, data, callers, parts, asked);
    }
    assert data[..data.Length] == data[..];
    copy, repr := Slice(data, 0, data.Length), parts + {data};
    CopiedStays(data[..], asked, parts, {data});
    assert Elements(copy) == data[..data.Length];
  }

  /** The first of these scopes, in arrays of their own. */
  ghost predicate Copied(hs: seq<HeapScope>, asked: seq<Scope>, parts: set<object>)
    reads parts
  {
    |hs| <= |asked| && forall k :: 0 <= k < |hs| ==> ScopeIn(hs[k], parts) && ScopeOf(hs[k], parts) == asked[k]
  }

  lemma CopiedStays(hs: seq<HeapScope>, asked: seq<Scope>, parts: set<object>, more: set<object>)
    requires Copied(hs, asked, parts)
    ensures Copied(hs, asked, parts + more)
  {
  }

  /** One profile's ceilings, in a table of their own. */
  method FrozenCeilings(a: Audiences?, ghost callers: set<object>) returns (copy: Audiences, ghost repr: set<object>)
    requires AudiencesIn(a, callers)
    ensures fresh(repr) && fresh(copy) && AudiencesIn(copy, repr) && CeilingsIn(copy, repr) == CeilingsIn(a, callers)
  {
    ghost var asked := CeilingsIn(a, callers);
    ghost var parts: set<object> := {};
    var entries: map<string, Scopes> := map[];
    var rest := if a == null then {} else a.entries.Keys;
    while rest != {}
      invariant fresh(parts) && rest <= asked.Keys && entries.Keys == asked.Keys - rest
      invariant AudiencesIn(a, callers) && CeilingsIn(a, callers) == asked
      invariant EntriesCopied(entries, asked, parts)
    {
      var audience :| audience in rest;
      var ceiling, own := FrozenScopes(a.entries[audience], callers);
      EntriesStay(entries, asked, parts, audience, ceiling, own);
      entries, parts, rest := entries[audience := ceiling], parts + own, rest - {audience};
    }
    copy, repr := TableOf(entries, asked, parts);
  }

  method TableOf(entries: map<string, Scopes>, ghost asked: Ceilings, ghost parts: set<object>)
    returns (copy: Audiences, ghost repr: set<object>)
    requires EntriesCopied(entries, asked, parts) && entries.Keys == asked.Keys
    ensures fresh(copy) && repr == parts + {copy} && AudiencesIn(copy, repr) && CeilingsIn(copy, repr) == asked
  {
    copy := new Audiences(entries);
    repr := parts + {copy};
    EntriesWiden(entries, asked, parts, {copy});
  }

  ghost predicate EntriesCopied(entries: map<string, Scopes>, asked: Ceilings, parts: set<object>)
    reads parts
  {
    forall k :: k in entries ==> k in asked && ScopesIn(entries[k], parts) && ScopesOf(entries[k], parts) == asked[k]
  }

  lemma ScopesWiden(s: Scopes, parts: set<object>, more: set<object>)
    requires ScopesIn(s, parts)
    ensures ScopesIn(s, parts + more) && ScopesOf(s, parts + more) == ScopesOf(s, parts)
  {
  }

  lemma EntriesWiden(entries: map<string, Scopes>, asked: Ceilings, parts: set<object>, more: set<object>)
    requires EntriesCopied(entries, asked, parts)
    ensures EntriesCopied(entries, asked, parts + more)
  {
  }

  lemma EntriesStay(
      entries: map<string, Scopes>, asked: Ceilings, parts: set<object>, name: string, s: Scopes, own: set<object>)
    requires EntriesCopied(entries, asked, parts)
    requires name in asked && ScopesIn(s, own) && ScopesOf(s, own) == asked[name]
    ensures EntriesCopied(entries[name := s], asked, parts + own)
  {
  }

  /** A whole contract: the table of profiles, each profile's table, and what is
      in them. One that declares no ceiling is kept as it is. */
  method FrozenContract(p: Profiles?, ghost callers: set<object>) returns (copy: Profiles?, ghost repr: set<object>)
    requires ProfilesIn(p, callers)
    ensures fresh(repr) && ProfilesIn(copy, repr) && ContractOf(copy, repr) == ContractOf(p, callers)
  {
    if p == null {
      return null, {};
    }
    ghost var declared := ContractOf(p, callers).ceilings;
    ghost var parts: set<object> := {};
    var entries: map<string, Audiences?> := map[];
    var rest := p.entries.Keys;
    while rest != {}
      invariant fresh(parts) && rest <= declared.Keys && entries.Keys == declared.Keys - rest
      invariant ProfilesIn(p, callers) && ContractOf(p, callers).ceilings == declared
      invariant ProfilesCopied(entries, declared, parts)
    {
      var profile :| profile in rest;
      var audiences, own := FrozenCeilings(p.entries[profile], callers);
      ProfilesStay(entries, declared, parts, profile, audiences, own);
      entries, parts, rest := entries[profile := audiences], parts + own, rest - {profile};
    }
    copy, repr := ProfileTable(entries, declared, parts);
  }

  method ProfileTable(
      entries: map<string, Audiences?>, ghost declared: map<string, Ceilings>, ghost parts: set<object>)
    returns (copy: Profiles, ghost repr: set<object>)
    requires ProfilesCopied(entries, declared, parts) && entries.Keys == declared.Keys
    ensures fresh(copy) && repr == parts + {copy} && ProfilesIn(copy, repr)
    ensures ContractOf(copy, repr) == ModuleContract(declared)
  {
    copy := new Profiles(entries);
    repr := parts + {copy};
    ProfilesWiden(entries, declared, parts, {copy});
  }

  ghost predicate ProfilesCopied(entries: map<string, Audiences?>, declared: map<string, Ceilings>, parts: set<object>)
    reads parts
  {
    forall k :: k in entries ==>
         k in declared && AudiencesIn(entries[k], parts) && CeilingsIn(entries[k], parts) == declared[k]
  }

  lemma AudiencesWiden(a: Audiences?, parts: set<object>, more: set<object>)
    requires AudiencesIn(a, parts)
    ensures AudiencesIn(a, parts + more) && CeilingsIn(a, parts + more) == CeilingsIn(a, parts)
  {
    if a != null {
      forall k | k in a.entries
        ensures ScopesIn(a.entries[k], parts + more)
        ensures ScopesOf(a.entries[k], parts + more) == ScopesOf(a.entries[k], parts)
      {
        ScopesWiden(a.entries[k], parts, more);
      }
    }
  }

  lemma ProfilesWiden(
      entries: map<string, Audiences?>, declared: map<string, Ceilings>, parts: set<object>, more: set<object>)
    requires ProfilesCopied(entries, declared, parts)
    ensures ProfilesCopied(entries, declared, parts + more)
  {
    forall k | k in entries
      ensures AudiencesIn(entries[k], parts + more) && CeilingsIn(entries[k], parts + more) == declared[k]
    {
      AudiencesWiden(entries[k], parts, more);
    }
  }

  lemma ProfilesStay(
      entries: map<string, Audiences?>, declared: map<string, Ceilings>, parts: set<object>,
      name: string, a: Audiences, own: set<object>)
    requires ProfilesCopied(entries, declared, parts)
    requires name in declared && AudiencesIn(a, own) && CeilingsIn(a, own) == declared[name]
    ensures ProfilesCopied(entries[name := a], declared, parts + own)
  {
    ProfilesWiden(entries, declared, parts, own);
    AudiencesWiden(a, own, parts);
    assert own + parts == parts + own;
  }

  // --- consumed modules ---

  method FrozenMethod(h: HeapMethod, ghost callers: set<object>) returns (copy: HeapMethod, ghost repr: set<object>)
    requires ScopesIn(h.scopes, callers)
    ensures fresh(repr) && ScopesIn(copy.scopes, repr) && MethodOf(copy, repr) == MethodOf(h, callers)
  {
    var scopes, own := FrozenScopes(h.scopes, callers);
    copy, repr := h.(scopes := scopes), own;
  }

  method CopyMethod(
      s: Methods, i: nat, data: array<HeapMethod>, ghost callers: set<object>, ghost parts: set<object>,
      ghost declared: seq<ConsumedMethod>)
    returns (ghost more: set<object>)
    requires s.Slice? && MethodsIn(s, callers) && MethodsOf(s, callers) == declared && i < s.to - s.from == data.Length
    requires data !in callers && data !in parts && MethodsCopied(data[..i], declared, parts)
    modifies data
    ensures fresh(more - parts) && data !in more && MethodsCopied(data[..i + 1], declared, more)
  {
    assert s.data[s.from + i] == Elements(s)[i];
    var rpc, own := FrozenMethod(s.data[s.from + i], callers);
    OneMoreMethod(data[..i], declared, parts, rpc, own);
    more := parts + own;
    data[i] := rpc;
    assert data[..i + 1] == data[..i] + [rpc];
  }

  method CopiedMethods(s: Methods, ghost callers: set<object>)
    returns (data: array<HeapMethod>, ghost parts: set<object>)
    requires s.Slice? && MethodsIn(s, callers)
    ensures fresh(data) && fresh(parts) && data !in parts && data.Length == s.to - s.from
    ensures MethodsCopied(data[..], MethodsOf(s, callers), parts)
  {
    ghost var declared := MethodsOf(s, callers);
    data := new HeapMethod[s.to - s.from](_ => HeapMethod("", Nil, None, false, None, Bounds(0, 0, 0)));
    parts := {};
    for i := 0 to data.Length
      invariant fresh(parts) && data !in parts && MethodsCopied(data[..i], declared, parts)
      invariant MethodsIn(s, callers) && MethodsOf(s, callers) == declared
      modifies data
    {
      parts := CopyMethod(s, i, data, callers, parts, declared);
    }
    assert data[..data.Length] == data[..];
  }

  method FrozenMethods(s: Methods, ghost callers: set<object>) returns (copy: Methods, ghost repr: set<object>)
    requires MethodsIn(s, callers)
    ensures fresh(repr) && MethodsIn(copy, repr) && MethodsOf(copy, repr) == MethodsOf(s, callers)
    ensures copy.Nil? <==> s.Nil?
  {
    if s.Nil? {
      return Nil, {};
    }
    ghost var declared := MethodsOf(s, callers);
    var data, parts := CopiedMethods(s, callers);
    copy, repr := Slice(data, 0, data.Length), parts + {data};
    MethodsWiden(data[..], declared, parts, {data});
    assert Elements(copy) == data[..data.Length] == data[..];
  }

  ghost predicate MethodsCopied(hs: seq<HeapMethod>, declared: seq<ConsumedMethod>, parts: set<object>)
    reads parts
  {
    && |hs| <= |declared|
    && forall k :: 0 <= k < |hs| ==> ScopesIn(hs[k].scopes, parts) && MethodOf(hs[k], parts) == declared[k]
  }

  lemma MethodsWiden(hs: seq<HeapMethod>, declared: seq<ConsumedMethod>, parts: set<object>, more: set<object>)
    requires MethodsCopied(hs, declared, parts)
    ensures MethodsCopied(hs, declared, parts + more)
  {
  }

  lemma OneMoreMethod(
      hs: seq<HeapMethod>, declared: seq<ConsumedMethod>, parts: set<object>, h: HeapMethod, own: set<object>)
    requires MethodsCopied(hs, declared, parts) && |hs| < |declared|
    requires ScopesIn(h.scopes, own) && MethodOf(h, own) == declared[|hs|]
    ensures MethodsCopied(hs + [h], declared, parts + own)
  {
    MethodsWiden(hs, declared, parts, own);
    ScopesWiden(h.scopes, own, parts);
    assert own + parts == parts + own;
  }

  method FrozenModule(m: HeapModule, ghost callers: set<object>) returns (copy: HeapModule, ghost repr: set<object>)
    requires ModuleIn(m, callers)
    ensures fresh(repr) && ModuleIn(copy, repr) && ModuleOf(copy, repr) == ModuleOf(m, callers)
  {
    var scopes, one := FrozenScopes(m.scopes, callers);
    var methods, other := FrozenMethods(m.methods, callers);
    ScopesWiden(scopes, one, other);
    MethodSliceWidens(methods, other, one);
    assert other + one == one + other;
    copy, repr := m.(scopes := scopes, methods := methods), one + other;
  }

  lemma MethodSliceWidens(s: Methods, parts: set<object>, more: set<object>)
    requires MethodsIn(s, parts)
    ensures MethodsIn(s, parts + more) && MethodsOf(s, parts + more) == MethodsOf(s, parts)
  {
    forall h | h in Elements(s)
      ensures ScopesIn(h.scopes, parts + more) && MethodOf(h, parts + more) == MethodOf(h, parts)
    {
      ScopesWiden(h.scopes, parts, more);
    }
  }

  // --- who keeps the copies ---

  class Server {
    var declared: Profiles?
    var consumed: seq<HeapModule>
    ghost var repr: set<object>

    ghost predicate Valid()
      reads this, repr
    {
      this !in repr && ProfilesIn(declared, repr) && ModulesIn(consumed, repr)
    }

    ghost function Declared(): ModuleContract
      requires Valid()
      reads this, repr
    {
      ContractOf(declared, repr)
    }

    ghost function Modules(): seq<ConsumedModule>
      requires Valid()
      reads this, repr
    {
      ModulesOf(consumed, repr)
    }

    constructor ()
      ensures Valid() && repr == {} && Declared() == ModuleContract(map[]) && Modules() == []
    {
      declared, consumed, repr := null, [], {};
    }

    /** The contract as it reads now is the server's from now on. */
    method Contract(contract: Profiles?, ghost callers: set<object>)
      requires Valid() && ProfilesIn(contract, callers)
      modifies this
      ensures Valid() && fresh(repr - old(repr))
      ensures Declared() == old(ContractOf(contract, callers)) && Modules() == old(Modules())
    {
      var copy, own := FrozenContract(contract, callers);
      ProfilesInWiden(copy, own, repr);
      ModulesWiden(consumed, repr, own);
      assert own + repr == repr + own;
      declared, repr := copy, repr + own;
    }

    /** So are the modules, each added after those declared before. */
    method Consumes(modules: seq<HeapModule>, ghost callers: set<object>)
      requires Valid() && this !in callers && ModulesIn(modules, callers)
      modifies this
      ensures Valid() && fresh(repr - old(repr))
      ensures Declared() == old(Declared())
      ensures Modules() == old(Modules()) + old(ModulesOf(modules, callers))
    {
      ghost var added := ModulesOf(modules, callers);
      ghost var before := Modules();
      for i := 0 to |modules|
        invariant Valid() && fresh(repr - old(repr)) && Declared() == old(Declared())
        invariant ModulesIn(modules, callers) && ModulesOf(modules, callers) == added
        invariant Modules() == before + added[..i]
      {
        ConsumeNext(modules, i, callers, before, added);
      }
      assert added[..|modules|] == added;
    }

    /** The first so many are added; and then the next. */
    method ConsumeNext(
        modules: seq<HeapModule>, i: nat, ghost callers: set<object>, ghost before: seq<ConsumedModule>,
        ghost added: seq<ConsumedModule>)
      requires Valid() && this !in callers && ModulesIn(modules, callers) && ModulesOf(modules, callers) == added
      requires i < |modules| && Modules() == before + added[..i]
      modifies this
      ensures Valid() && fresh(repr - old(repr)) && Declared() == old(Declared())
      ensures ModulesIn(modules, callers) && ModulesOf(modules, callers) == added
      ensures Modules() == before + added[..i + 1]
    {
      assert added[i] == ModuleOf(modules[i], callers);
      assert added[..i + 1] == added[..i] + [added[i]];
      Consume(modules[i], callers);
    }

    method Consume(m: HeapModule, ghost callers: set<object>)
      requires Valid() && this !in callers && ModuleIn(m, callers)
      modifies this
      ensures Valid() && fresh(repr - old(repr))
      ensures Declared() == old(Declared()) && Modules() == old(Modules()) + [old(ModuleOf(m, callers))]
    {
      var copy, own := FrozenModule(m, callers);
      Keep(copy, own);
    }

    method Keep(m: HeapModule, ghost own: set<object>)
      requires Valid() && this !in own && ModuleIn(m, own)
      modifies this
      ensures Valid() && repr == old(repr) + own
      ensures Declared() == old(Declared()) && Modules() == old(Modules()) + [old(ModuleOf(m, own))]
    {
      ProfilesInWiden(declared, repr, own);
      OneMoreModule(consumed, repr, m, own);
      consumed, repr := consumed + [m], repr + own;
    }
  }

  lemma OneMoreModule(ms: seq<HeapModule>, parts: set<object>, m: HeapModule, own: set<object>)
    requires ModulesIn(ms, parts) && ModuleIn(m, own)
    ensures ModulesIn(ms + [m], parts + own)
    ensures ModulesOf(ms + [m], parts + own) == ModulesOf(ms, parts) + [ModuleOf(m, own)]
  {
    ModulesWiden(ms, parts, own);
    ModuleWidens(m, own, parts);
    assert own + parts == parts + own;
  }

  lemma ModuleWidens(m: HeapModule, parts: set<object>, more: set<object>)
    requires ModuleIn(m, parts)
    ensures ModuleIn(m, parts + more) && ModuleOf(m, parts + more) == ModuleOf(m, parts)
  {
    ScopesWiden(m.scopes, parts, more);
    MethodSliceWidens(m.methods, parts, more);
  }

  lemma ModulesWiden(ms: seq<HeapModule>, parts: set<object>, more: set<object>)
    requires ModulesIn(ms, parts)
    ensures ModulesIn(ms, parts + more) && ModulesOf(ms, parts + more) == ModulesOf(ms, parts)
  {
    forall m | m in ms ensures ModuleIn(m, parts + more) && ModuleOf(m, parts + more) == ModuleOf(m, parts) {
      ModuleWidens(m, parts, more);
    }
  }

  lemma ProfilesInWiden(p: Profiles?, parts: set<object>, more: set<object>)
    requires ProfilesIn(p, parts)
    ensures ProfilesIn(p, parts + more) && ContractOf(p, parts + more) == ContractOf(p, parts)
  {
    if p != null {
      forall k | k in p.entries
        ensures AudiencesIn(p.entries[k], parts + more)
        ensures CeilingsIn(p.entries[k], parts + more) == CeilingsIn(p.entries[k], parts)
      {
        AudiencesWiden(p.entries[k], parts, more);
      }
    }
  }

  /** A derived gateway's ask of the viewer's authority, held for every renewal
      under the key computed when it was derived. */
  class Delegation {
    const key: string
    const binding: string
    const scopes: Scopes
    ghost const repr: set<object>

    ghost predicate Valid()
      reads repr
    {
      ScopesIn(scopes, repr)
    }

    ghost function Asks(): Ask
      requires Valid()
      reads repr
    {
      ChildAsk(binding, ScopesOf(scopes, repr))
    }

    /** The key is spelled from what the copied scopes read as. */
    constructor ForParent(
        request: Request, binding: string, scopes: Scopes, ghost asked: Ask, ghost callers: set<object>)
      requires ScopesIn(scopes, callers) && asked == ChildAsk(binding, ScopesOf(scopes, callers))
      ensures Valid() && fresh(repr) && Asks() == asked && key == Key(request, asked)
    {
      var copy, own := FrozenScopes(scopes, callers);
      var read := ScopesOf(copy, own);
      key, this.binding, this.scopes, repr := Key(request, ChildAsk(binding, read)), binding, copy, own;
    }
  }

  // --- what the caller may still do ---

  /** One write through something the caller holds. */
  datatype Write =
    | IntoStrings(strings: array<string>, i: nat, value: string)
    | IntoScopes(scopes: array<HeapScope>, i: nat, scope: HeapScope)
    | IntoMethods(methods: array<HeapMethod>, i: nat, rpc: HeapMethod)
    | IntoAudiences(audiences: Audiences, ceilings: map<string, Scopes>)
    | IntoProfiles(profiles: Profiles, tables: map<string, Audiences?>)

  ghost function Target(w: Write): object {
    match w
    case IntoStrings(strings, _, _) => strings
    case IntoScopes(scopes, _, _) => scopes
    case IntoMethods(methods, _, _) => methods
    case IntoAudiences(audiences, _) => audiences
    case IntoProfiles(profiles, _) => profiles
  }

  method Perform(w: Write)
    modifies Target(w)
  {
    match w {
      case IntoStrings(strings, i, value) => if i < strings.Length { strings[i] := value; }
      case IntoScopes(scopes, i, scope) => if i < scopes.Length { scopes[i] := scope; }
      case IntoMethods(methods, i, rpc) => if i < methods.Length { methods[i] := rpc; }
      case IntoAudiences(audiences, ceilings) => audiences.entries := ceilings;
      case IntoProfiles(profiles, tables) => profiles.entries := tables;
    }
  }

  method PerformAll(writes: seq<Write>, ghost callers: set<object>)
    requires forall w :: w in writes ==> Target(w) in callers
    modifies callers
  {
    for i := 0 to |writes| {
      Perform(writes[i]);
    }
  }

  method DeclareAll(contract: Profiles?, modules: seq<HeapModule>, ghost callers: set<object>) returns (server: Server)
    requires ProfilesIn(contract, callers) && ModulesIn(modules, callers)
    ensures fresh(server) && fresh(server.repr) && server.Valid()
    ensures server.Declared() == ContractOf(contract, callers) && server.Modules() == ModulesOf(modules, callers)
  {
    server := new Server();
    server.Contract(contract, callers);
    server.Consumes(modules, callers);
  }

  /** Declare, derive, and then write anything anywhere the caller could reach
      when it declared: the server still holds the contract and the modules that
      were declared, and every renewal asks for what the key was computed for. */
  method LaterWritesDoNotShow(
      contract: Profiles?, modules: seq<HeapModule>, request: Request, binding: string, scopes: Scopes,
      writes: seq<Write>, ghost callers: set<object>)
    returns (server: Server, acting: Delegation)
    requires ProfilesIn(contract, callers) && ModulesIn(modules, callers) && ScopesIn(scopes, callers)
    requires forall w :: w in writes ==> Target(w) in callers
    modifies callers
    ensures server.Valid() && acting.Valid()
    ensures server.Declared() == old(ContractOf(contract, callers))
    ensures server.Modules() == old(ModulesOf(modules, callers))
    ensures acting.Asks() == ChildAsk(binding, old(ScopesOf(scopes, callers)))
    ensures acting.key == Key(request, acting.Asks())
  {
    ghost var asked := ChildAsk(binding, ScopesOf(scopes, callers));
    server := DeclareAll(contract, modules, callers);
    acting := new Delegation.ForParent(request, binding, scopes, asked, callers);
    ghost var declared, consumed := server.Declared(), server.Modules();
    PerformAll(writes, callers);
    assert server.Declared() == declared && server.Modules() == consumed && acting.Asks() == asked;
  }
}
