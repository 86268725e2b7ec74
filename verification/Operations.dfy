/** The operations a backend declares, when they can be served, and the table
    requests are dispatched by. */
module Operations {
  import opened Wrappers
  import T = Text
  import opened Casing

  // --- what a call must hold ---

  datatype Requirement = Requirement(kind: string, actions: seq<string>)

  datatype Policy = Policy(needs: seq<Requirement>, anyCheckedCaller: bool)

  datatype PolicyFault = Absent | BothThings | EmptyPolicy | NoKindOrAction | EmptyAction

  const READ := "read"

  /** Every requirement is the one read action. */
  predicate ReadOnly(p: Option<Policy>) {
    && p.Some? && !p.value.anyCheckedCaller && p.value.needs != []
    && forall r :: r in p.value.needs ==> r.actions == [READ]
  }

  function PolicyFaultOf(p: Option<Policy>): Option<PolicyFault> {
    if p == None then Some(Absent)
    else if p.value.anyCheckedCaller && p.value.needs != [] then Some(BothThings)
    else if !p.value.anyCheckedCaller && p.value.needs == [] then Some(EmptyPolicy)
    else NeedsFault(p.value.needs)
  }

  /** What is wrong with the first requirement something is wrong with. */
  function NeedsFault(needs: seq<Requirement>): Option<PolicyFault> {
    if needs == [] then None
    else if needs[0].kind == "" || needs[0].actions == [] then Some(NoKindOrAction)
    else if "" in needs[0].actions then Some(EmptyAction)
    else NeedsFault(needs[1..])
  }

  /** A policy that says something: that any checked caller may make the call, and no
      more, or what a call must hold, each a kind and some actions, all named. */
  predicate Says(p: Policy) {
    if p.anyCheckedCaller then p.needs == []
    else
      && p.needs != []
      && forall i :: 0 <= i < |p.needs| ==>
           p.needs[i].kind != "" && p.needs[i].actions != [] && "" !in p.needs[i].actions
  }

  lemma {:induction false} NeedsFaultIff(needs: seq<Requirement>)
    ensures NeedsFault(needs) == None <==>
            forall i :: 0 <= i < |needs| ==> needs[i].kind != "" && needs[i].actions != [] && "" !in needs[i].actions
  {
    if needs != [] {
      NeedsFaultIff(needs[1..]);
      assert forall i :: 0 < i < |needs| ==> needs[i] == needs[1..][i - 1];
      assert forall i :: 0 <= i < |needs[1..]| ==> needs[1..][i] == needs[i + 1];
    }
  }

  lemma PolicyIff(p: Option<Policy>)
    ensures PolicyFaultOf(p) == None <==> p.Some? && Says(p.value)
  {
    if p.Some? { NeedsFaultIff(p.value.needs); }
  }

  /** A policy of reads: what it asks for is one action each, and that is to read. */
  predicate AsksOnlyToRead(p: Option<Policy>) {
    && p.Some? && !p.value.anyCheckedCaller && |p.value.needs| > 0
    && forall i :: 0 <= i < |p.value.needs| ==> p.value.needs[i].actions == ["read"]
  }

  lemma ReadOnlyIff(p: Option<Policy>)
    ensures ReadOnly(p) <==> AsksOnlyToRead(p)
  {
    if p.Some? { assert forall i :: 0 <= i < |p.value.needs| ==> p.value.needs[i] in p.value.needs; }
  }

  // --- an operation ---

  /** One declared route. spelled is its method as its author wrote it. */
  datatype Operation = Operation(
    path: string, spelled: string, summary: string, callers: string, behavior: string,
    response: bool, handler: bool, requestHandler: bool,
    policy: Option<Policy>, streaming: bool, exclude: bool, tool: string)

  datatype OpFault =
    | RelativePath | NoSummary | NoCallers | NoBehavior | NoResponse | NoHandler | TwoHandlers | UnservedMethod
    | BadToolName | ToolExcluded | ToolStreams | ToolNotARead | BadPolicy(fault: PolicyFault)

  const SERVED := ["GET", "HEAD", "POST", "PUT", "PATCH", "DELETE"]

  const MAX_TOOL_NAME := 64

  predicate ToolChar(c: char) { IsLower(c) || '0' <= c <= '9' || c == '_' }

  /** Lower-case letters and digits in words joined by single underscores, and a
      letter first. */
  predicate ToolName(s: string) {
    && s != "" && IsLower(s[0]) && s[|s| - 1] != '_'
    && (forall i :: 0 <= i < |s| ==> ToolChar(s[i]))
    && (forall i :: 0 <= i < |s| - 1 ==> !(s[i] == '_' && s[i + 1] == '_'))
  }

  function Spelled(o: Operation): string {
    if o.spelled == "" then "get" else o.spelled
  }

  /** The method as a request spells it, and as the document does. */
  function Verb(t: Table, o: Operation): string { Upper(t, Spelled(o)) }
  function MethodKey(t: Table, o: Operation): string { Lower(t, Spelled(o)) }

  function Validate(t: Table, o: Operation): Option<OpFault> {
    if o.path == "" || o.path[0] != '/' then Some(RelativePath)
    else if o.summary == "" then Some(NoSummary)
    else if o.callers == "" then Some(NoCallers)
    else if o.behavior == "" then Some(NoBehavior)
    else if !o.response then Some(NoResponse)
    else if !o.handler && !o.requestHandler then Some(NoHandler)
    else if o.handler && o.requestHandler then Some(TwoHandlers)
    else if Verb(t, o) !in SERVED then Some(UnservedMethod)
    else if o.tool != "" && (|o.tool| > MAX_TOOL_NAME || !ToolName(o.tool)) then Some(BadToolName)
    else if o.tool != "" && o.exclude then Some(ToolExcluded)
    else if o.tool != "" && o.streaming then Some(ToolStreams)
    else if o.tool != "" && !ReadOnly(o.policy) then Some(ToolNotARead)
    else
      match PolicyFaultOf(o.policy)
      case Some(fault) => Some(BadPolicy(fault))
      case None => None
  }

  predicate IsWord(word: string) {
    word != "" && forall c :: c in word ==> 'a' <= c <= 'z' || '0' <= c <= '9'
  }

  predicate Worded(s: string) {
    forall word :: word in T.Split(s, '_') ==> IsWord(word)
  }

  /** Words of small letters and digits, one underscore between, a letter first. */
  predicate Words(s: string) {
    s != "" && 'a' <= s[0] <= 'z' && Worded(s)
  }

  predicate Spaced(s: string) {
    && s != "" && s[0] != '_' && s[|s| - 1] != '_'
    && (forall i :: 0 <= i < |s| ==> ToolChar(s[i]))
    && (forall i :: 0 <= i < |s| - 1 ==> !(s[i] == '_' && s[i + 1] == '_'))
  }

  /** The words of s, when it begins one: those of what follows its first letter,
      and that letter before them. */
  lemma SplitLetter(s: string)
    requires s != "" && s[0] != '_'
    ensures T.Split(s, '_') == [[s[0]] + T.Split(s[1..], '_')[0]] + T.Split(s[1..], '_')[1..]
  {
  }

  lemma {:induction false} SpacedIff(s: string)
    ensures Worded(s) <==> Spaced(s)
    decreases |s|
  {
    if s == "" {
      assert T.Split(s, '_') == [""] && "" in [""];
    } else if s[0] == '_' {
      assert T.Split(s, '_')[0] == "" && T.Split(s, '_')[0] in T.Split(s, '_');
    } else if |s| == 1 {
      SplitLetter(s);
      assert s[1..] == "" && [s[0]] + "" == s;
      assert T.Split(s, '_') == [s] && s in [s];
      assert s[0] in s && forall c :: c in s ==> c == s[0];
    } else if s[1] == '_' {
      assert s == [s[0]] + ['_'] + s[2..];
      T.SplitHead([s[0]], s[2..], '_');
      assert T.Split(s, '_') == [[s[0]]] + T.Split(s[2..], '_');
      SpacedIff(s[2..]);
      SpacedBehind(s);
      WordedBehind(s, T.Split(s, '_'), T.Split(s[2..], '_'));
    } else {
      SplitLetter(s);
      SpacedIff(s[1..]);
      SpacedFurther(s);
      WordedFurther(s, T.Split(s, '_'), T.Split(s[1..], '_'));
    }
  }

  lemma SpacedBehind(s: string)
    requires |s| >= 2 && s[0] != '_' && s[1] == '_'
    ensures Spaced(s) <==> ToolChar(s[0]) && Spaced(s[2..])
  {
    if Spaced(s[2..]) && ToolChar(s[0]) {
      assert forall i :: 2 <= i < |s| ==> s[i] == s[2..][i - 2];
    }
    if Spaced(s) {
      assert |s| > 2 && !(s[1] == '_' && s[2] == '_');
      assert forall i :: 0 <= i < |s[2..]| ==> s[2..][i] == s[i + 2];
    }
  }

  lemma SpacedFurther(s: string)
    requires |s| >= 2 && s[0] != '_' && s[1] != '_'
    ensures Spaced(s) <==> ToolChar(s[0]) && Spaced(s[1..])
  {
    if Spaced(s[1..]) && ToolChar(s[0]) {
      assert forall i :: 1 <= i < |s| ==> s[i] == s[1..][i - 1];
    }
    if Spaced(s) {
      assert forall i :: 0 <= i < |s[1..]| ==> s[1..][i] == s[i + 1];
    }
  }

  lemma WordedBehind(s: string, all: seq<string>, rest: seq<string>)
    requires s != "" && s[0] != '_' && all == [[s[0]]] + rest
    ensures (forall word :: word in all ==> IsWord(word)) <==>
            ToolChar(s[0]) && forall word :: word in rest ==> IsWord(word)
  {
    assert s[0] in [s[0]] && forall c :: c in [s[0]] ==> c == s[0];
    assert IsWord([s[0]]) <==> ToolChar(s[0]);
    assert forall word :: word in all <==> word == [s[0]] || word in rest;
  }

  lemma WordedFurther(s: string, all: seq<string>, rest: seq<string>)
    requires s != "" && s[0] != '_' && rest != [] && rest[0] != "" && all == [[s[0]] + rest[0]] + rest[1..]
    ensures (forall word :: word in all ==> IsWord(word)) <==>
            ToolChar(s[0]) && forall word :: word in rest ==> IsWord(word)
  {
    var first := [s[0]] + rest[0];
    assert first[0] == s[0] && forall c :: c in first <==> c == s[0] || c in rest[0];
    if IsWord(first) {
      assert s[0] in first;
      forall c | c in rest[0] ensures 'a' <= c <= 'z' || '0' <= c <= '9' { assert c in first; }
    }
    assert ToolChar(s[0]) && IsWord(rest[0]) ==> IsWord(first);
    assert forall word :: word in all <==> word == first || word in rest[1..];
    assert rest == [rest[0]] + rest[1..];
    assert forall word :: word in rest <==> word == rest[0] || word in rest[1..];
  }

  lemma ToolNameIff(s: string)
    ensures ToolName(s) <==> Words(s)
  {
    SpacedIff(s);
  }

  /** An operation that can be declared, rule by rule. */
  predicate CanBeDeclared(t: Table, o: Operation) {
    && o.path != "" && o.path[0] == '/' && o.summary != "" && o.callers != "" && o.behavior != "" && o.response
    && (o.handler <==> !o.requestHandler)
    && Upper(t, if o.spelled == "" then "get" else o.spelled) in {"GET", "HEAD", "POST", "PUT", "PATCH", "DELETE"}
    && (o.tool != "" ==> |o.tool| <= 64 && Words(o.tool) && !o.exclude && !o.streaming && AsksOnlyToRead(o.policy))
    && o.policy.Some? && Says(o.policy.value)
  }

  lemma ValidIff(t: Table, o: Operation)
    ensures Validate(t, o) == None <==> CanBeDeclared(t, o)
  {
    PolicyIff(o.policy);
    ReadOnlyIff(o.policy);
    ToolNameIff(o.tool);
    assert forall v :: v in SERVED <==> v in {"GET", "HEAD", "POST", "PUT", "PATCH", "DELETE"};
  }

  /** What a fault says of an operation. */
  predicate Faulty(t: Table, o: Operation, fault: OpFault) {
    match fault
    case RelativePath => !("/" <= o.path)
    case NoSummary => o.summary == ""
    case NoCallers => o.callers == ""
    case NoBehavior => o.behavior == ""
    case NoResponse => !o.response
    case NoHandler => !o.handler && !o.requestHandler
    case TwoHandlers => o.handler && o.requestHandler
    case UnservedMethod => Verb(t, o) !in {"GET", "HEAD", "POST", "PUT", "PATCH", "DELETE"}
    case BadToolName => |o.tool| > 64 || (o.tool != "" && !Words(o.tool))
    case ToolExcluded => o.tool != "" && o.exclude
    case ToolStreams => o.tool != "" && o.streaming
    case ToolNotARead => o.tool != "" && !AsksOnlyToRead(o.policy)
    case BadPolicy(Absent) => o.policy == None
    case BadPolicy(BothThings) => o.policy.Some? && o.policy.value.anyCheckedCaller && o.policy.value.needs != []
    case BadPolicy(EmptyPolicy) => o.policy.Some? && !o.policy.value.anyCheckedCaller && o.policy.value.needs == []
    case BadPolicy(NoKindOrAction) =>
      o.policy.Some? && exists r :: r in o.policy.value.needs && (r.kind == "" || r.actions == [])
    case BadPolicy(EmptyAction) => o.policy.Some? && exists r :: r in o.policy.value.needs && "" in r.actions
  }

  lemma {:induction false} NeedsFaultIsTrue(needs: seq<Requirement>)
    requires NeedsFault(needs).Some?
    ensures NeedsFault(needs).value == NoKindOrAction ==> exists r :: r in needs && (r.kind == "" || r.actions == [])
    ensures NeedsFault(needs).value == EmptyAction ==> exists r :: r in needs && "" in r.actions
    ensures NeedsFault(needs).value.NoKindOrAction? || NeedsFault(needs).value.EmptyAction?
  {
    assert needs[0] in needs;
    if NeedsFault(needs) == NeedsFault(needs[1..]) {
      NeedsFaultIsTrue(needs[1..]);
      assert forall r :: r in needs[1..] ==> r in needs;
    }
  }

  /** What refuses an operation is true of it. */
  lemma FaultIsTrue(t: Table, o: Operation)
    requires Validate(t, o).Some?
    ensures Faulty(t, o, Validate(t, o).value)
  {
    ReadOnlyIff(o.policy);
    ToolNameIff(o.tool);
    if o.policy.Some? && NeedsFault(o.policy.value.needs).Some? { NeedsFaultIsTrue(o.policy.value.needs); }
  }

  /** A method's capital form decides its lower-case one, but for one letter of
      one method: "post" and its spelling with a long s are both POST, and are two
      spellings in lower case. */
  lemma SpellingsOfAMethod(t: Table, a: Operation, b: Operation)
    requires LikeUnicode(t) && Verb(t, a) == Verb(t, b) && Verb(t, a) in SERVED
    ensures MethodKey(t, a) != MethodKey(t, b) <==>
              Verb(t, a) == "POST" && (LONG_S in Spelled(a) <==> LONG_S !in Spelled(b))
  {
    var v, x, y := Verb(t, a), Spelled(a), Spelled(b);
    LettersOfMethods(v);
    forall i | 0 <= i < |v|
      ensures MethodKey(t, a)[i] == MethodKey(t, b)[i] <==> (x[i] == LONG_S <==> y[i] == LONG_S)
      ensures x[i] == LONG_S || y[i] == LONG_S ==> v == "POST" && i == 2
    {
      assert t.upper(x[i]) == v[i] == t.upper(y[i]);
      OneCapitalForm(t, x[i], y[i]);
    }
    if MethodKey(t, a) != MethodKey(t, b) {
      var i :| 0 <= i < |v| && MethodKey(t, a)[i] != MethodKey(t, b)[i];
    }
    if v == "POST" {
      assert LONG_S in x <==> x[2] == LONG_S;
      assert LONG_S in y <==> y[2] == LONG_S;
    }
  }

  /** In capitals, the document's method is the request's. */
  lemma KeyIsTheVerb(t: Table, o: Operation)
    requires LikeUnicode(t) && Validate(t, o) == None
    ensures Upper(t, MethodKey(t, o)) == Verb(t, o) && Verb(t, o) in SERVED
  {
    LettersOfMethods(Verb(t, o));
    forall i | 0 <= i < |Spelled(o)| ensures t.upper(t.lower(Spelled(o)[i])) == t.upper(Spelled(o)[i]) {
      assert t.upper(Spelled(o)[i]) == Verb(t, o)[i];
    }
  }

  /** Respelling a method within its capital form changes nothing else. */
  lemma RespelledIsValid(t: Table, o: Operation, spelled: string)
    requires Validate(t, o) == None && Verb(t, o.(spelled := spelled)) == Verb(t, o)
    ensures Validate(t, o.(spelled := spelled)) == None
  {
  }

  lemma LettersOfMethods(v: string)
    requires v in SERVED
    ensures forall i :: 0 <= i < |v| ==> IsUpper(v[i]) && v[i] != 'I' && (v[i] == 'S' ==> v == "POST" && i == 2)
    ensures v != ""
  {
  }

  // --- the table ---

  datatype TableFault = Unservable(i: nat, fault: OpFault) | DeclaredTwice(i: nat)

  type DispatchTable = map<string, map<string, int>>

  predicate SameEntry(t: Table, a: Operation, b: Operation) {
    a.path == b.path && Verb(t, a) == Verb(t, b)
  }

  /** Operations that can be dispatched to: each on its own, and no two for one
      method of one path. */
  predicate Servable(t: Table, ops: seq<Operation>) {
    && (forall i :: 0 <= i < |ops| ==> Validate(t, ops[i]) == None)
    && (forall i, j :: 0 <= i < j < |ops| ==> !SameEntry(t, ops[i], ops[j]))
  }

  predicate Entry(table: DispatchTable, path: string, verb: string) {
    path in table && verb in table[path]
  }

  /** Each operation is found by its path and method, and nothing else is. */
  ghost predicate IsTable(t: Table, table: DispatchTable, ops: seq<Operation>) {
    && (forall i :: 0 <= i < |ops| ==>
         Entry(table, ops[i].path, Verb(t, ops[i])) && table[ops[i].path][Verb(t, ops[i])] == i)
    && (forall path, verb :: Entry(table, path, verb) ==> EntryIsOf(t, table[path][verb], path, verb, ops))
  }

  predicate EntryIsOf(t: Table, i: int, path: string, verb: string, ops: seq<Operation>) {
    0 <= i < |ops| && ops[i].path == path && Verb(t, ops[i]) == verb
  }

  method OperationTable(t: Table, ops: seq<Operation>) returns (r: Result<DispatchTable, TableFault>)
    ensures r.Ok? <==> Servable(t, ops)
    ensures r.Ok? ==> IsTable(t, r.value, ops)
    ensures r.Err? ==> r.error.i < |ops|
    ensures r.Err? && r.error.Unservable? ==> Validate(t, ops[r.error.i]) == Some(r.error.fault)
    ensures r.Err? && r.error.DeclaredTwice? ==> exists k :: 0 <= k < r.error.i && SameEntry(t, ops[k], ops[r.error.i])
  {
    var table: DispatchTable := map[];
    for i := 0 to |ops|
      invariant Servable(t, ops[..i]) && IsTable(t, table, ops[..i])
    {
      var op := ops[i];
      assert ops[..i + 1] == ops[..i] + [op];
      var fault := Validate(t, op);
      if fault.Some? {
        return Err(Unservable(i, fault.value));
      }
      var path, verb := op.path, Verb(t, op);
      if path !in table {
        table := table[path := map[]];
      }
      if verb in table[path] {
        var k := table[path][verb];
        assert EntryIsOf(t, k, path, verb, ops[..i]);
        assert SameEntry(t, ops[k], ops[i]);
        return Err(DeclaredTwice(i));
      }
      OneMoreEntry(t, table, ops[..i], op);
      table := table[path := table[path][verb := i]];
    }
    assert ops[..|ops|] == ops;
    return Ok(table);
  }

  /** An entry added under its own path and method; the path's own table may have
      been added empty just before. */
  lemma OneMoreEntry(t: Table, table: DispatchTable, ops: seq<Operation>, op: Operation)
    requires Servable(t, ops) && IsTable(t, table, ops) && Validate(t, op) == None
    requires op.path in table && Verb(t, op) !in table[op.path]
    ensures Servable(t, ops + [op])
    ensures IsTable(t, table[op.path := table[op.path][Verb(t, op) := |ops|]], ops + [op])
  {
    var verb, more := Verb(t, op), ops + [op];
    var after := table[op.path := table[op.path][verb := |ops|]];
    forall i | 0 <= i < |ops|
      ensures Entry(after, ops[i].path, Verb(t, ops[i])) && after[ops[i].path][Verb(t, ops[i])] == i
    {
      assert Entry(table, ops[i].path, Verb(t, ops[i]));
    }
    forall path, v | Entry(after, path, v) ensures EntryIsOf(t, after[path][v], path, v, more) {
      if !(path == op.path && v == verb) {
        assert Entry(table, path, v) && EntryIsOf(t, table[path][v], path, v, ops);
      }
    }
    NotThereYet(t, table, ops, op);
  }

  lemma NotThereYet(t: Table, table: DispatchTable, ops: seq<Operation>, op: Operation)
    requires Servable(t, ops) && IsTable(t, table, ops) && Validate(t, op) == None
    requires op.path in table && Verb(t, op) !in table[op.path]
    ensures Servable(t, ops + [op])
  {
  }
}
