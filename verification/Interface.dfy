/** The rows of the interface document: what is published for each declared
    operation, and what each is named to a model. */
module Interface {
  import opened Wrappers
  import T = Text
  import opened Casing
  import opened Routes
  import opened Operations

  /** What the core library answers when asked to mark a route: a marker, that it
      derives none, or an error. */
  datatype Marking = Marker | NotDerivable | MarkerError

  /** One endpoint of the document: its operationId, the operation it was rendered
      from, and the name it is marked under when it is marked. */
  datatype Endpoint = Endpoint(id: string, op: int, marked: Option<string>)

  /** Routes, and under each its methods. */
  type Paths = map<string, map<string, Endpoint>>

  datatype RenderFault =
    | Unrenderable(i: nat, fault: OpFault)
    | RowTwice(i: nat)
    | SharedId(i: nat)
    | SharedTool(i: nat)
    | MarkerFailed(i: nat)

  /** What a document is rendered with: how names start, the audience markers
      name, the letter-case table, and the core library's answer for the i-th
      operation under a name. */
  datatype Info = Info(prefix: string, audience: string, letters: Table, marks: (nat, string) -> Marking)

  // --- names ---

  function Trimmed(s: string): string {
    if s != "" && s[0] == '/' then Trimmed(s[1..])
    else if s != "" && s[|s| - 1] == '/' then Trimmed(s[..|s| - 1])
    else s
  }

  function UntilEquals(s: string): string {
    if s == "" || s[0] == '=' then "" else [s[0]] + UntilEquals(s[1..])
  }

  /** A segment as an id spells it: a wildcard by its name. */
  function SegmentName(segment: string): string {
    if segment != "" && segment[0] == '{' then
      var name := segment[1..];
      UntilEquals(if name != "" && name[|name| - 1] == '}' then name[..|name| - 1] else name)
    else segment
  }

  function JoinTitled(t: Table, segments: seq<string>): string {
    if segments == [] then "" else "_" + Title(t, SegmentName(segments[0])) + JoinTitled(t, segments[1..])
  }

  function OperationId(t: Table, prefix: string, key: string, route: string): string {
    prefix + "_" + Title(t, Lower(t, key)) + JoinTitled(t, T.Split(Trimmed(route), '/'))
  }

  /** Segments with a slash before each. */
  function Behind(segments: seq<string>): string {
    if segments == [] then "" else "/" + segments[0] + Behind(segments[1..])
  }

  predicate PlainSegments(segments: seq<string>) {
    segments != [] && forall segment :: segment in segments ==> segment != "" && '/' !in segment
  }

  lemma PlainRest(segments: seq<string>)
    requires PlainSegments(segments)
    ensures segments[0] != "" && '/' !in segments[0]
    ensures |segments| > 1 ==> PlainSegments(segments[1..])
  {
    assert segments[0] in segments;
    assert forall segment :: segment in segments[1..] ==> segment in segments;
  }

  lemma SplitOne(first: string, more: string)
    requires '/' !in first && more != "" && more[0] == '/'
    ensures T.Split(first + more, '/') == [first] + T.Split(more[1..], '/')
  {
    assert first + more == first + ['/'] + more[1..];
    T.SplitHead(first, more[1..], '/');
  }

  lemma {:induction false} SplitBehind(segments: seq<string>)
    requires PlainSegments(segments)
    ensures var s := Behind(segments); |s| > 1 && s[0] == '/' && s[1] != '/' && s[|s| - 1] != '/'
    ensures T.Split(Behind(segments)[1..], '/') == segments
  {
    PlainRest(segments);
    var first, rest, s := segments[0], segments[1..], Behind(segments);
    assert s[1..] == first + Behind(rest) && s[1] == first[0];
    if rest == [] {
      T.SplitHead(first, "", '/');
      assert first + "" == first && s[|s| - 1] == first[|first| - 1];
    } else {
      SplitBehind(rest);
      SplitOne(first, Behind(rest));
      assert s[|s| - 1] == Behind(rest)[|Behind(rest)| - 1];
    }
  }

  lemma TrimmedBehind(segments: seq<string>)
    requires PlainSegments(segments)
    ensures Trimmed(Behind(segments)) == Behind(segments)[1..]
    ensures Trimmed(Behind(segments) + "/") == Behind(segments)[1..]
  {
    SplitBehind(segments);
    var s := Behind(segments);
    var inner := s[1..];
    assert inner != "" && inner[0] != '/' && inner[|inner| - 1] != '/';
    assert (s + "/")[1..] == inner + "/" && (inner + "/")[..|inner|] == inner;
  }

  lemma IdOfPlain(t: Table, prefix: string, key: string, segments: seq<string>, slash: bool)
    requires PlainSegments(segments)
    ensures OperationId(t, prefix, key, Behind(segments) + if slash then "/" else "") ==
              prefix + "_" + Title(t, Lower(t, key)) + JoinTitled(t, segments)
  {
    SplitBehind(segments);
    TrimmedBehind(segments);
    assert Behind(segments) + "" == Behind(segments);
  }

  lemma {:induction false} JoinTitledFurther(t: Table, segments: seq<string>, last: string)
    ensures JoinTitled(t, segments + [last]) == JoinTitled(t, segments) + "_" + Title(t, SegmentName(last))
  {
    if segments == [] {
      assert [] + [last] == [last] && JoinTitled(t, []) == "";
    } else {
      assert (segments + [last])[1..] == segments[1..] + [last];
      JoinTitledFurther(t, segments[1..], last);
    }
  }

  /** A word with its first letter raised. */
  function Capitalised(t: Table, word: string): string {
    if |word| == 0 then "" else [t.upper(word[0])] + word[1..]
  }

  /** An id is the prefix, and the method in lower case and the name of each segment
      of the route in turn, each behind an underscore with its first letter raised,
      whether or not a slash follows: of one segment, and of one segment more. */
  lemma IdOfOneSegment(t: Table, prefix: string, key: string, last: string, slash: bool)
    requires PlainSegments([last])
    ensures OperationId(t, prefix, key, Behind([last]) + if slash then "/" else "") ==
              prefix + "_" + Capitalised(t, Lower(t, key)) + ("_" + Capitalised(t, SegmentName(last)))
  {
    IdOfPlain(t, prefix, key, [last], slash);
    OneTitled(t, last);
  }

  lemma OneTitled(t: Table, last: string)
    ensures JoinTitled(t, [last]) == "_" + Capitalised(t, SegmentName(last))
  {
    assert [last][1..] == [] && JoinTitled(t, []) == "";
  }

  lemma IdOfOneMoreSegment(
      t: Table, prefix: string, key: string, segments: seq<string>, last: string, slash: bool)
    requires PlainSegments(segments) && PlainSegments(segments + [last])
    ensures OperationId(t, prefix, key, Behind(segments + [last]) + if slash then "/" else "") ==
              OperationId(t, prefix, key, Behind(segments) + "") + "_" + Capitalised(t, SegmentName(last))
  {
    IdOfPlain(t, prefix, key, segments + [last], slash);
    IdOfPlain(t, prefix, key, segments, false);
    JoinTitledFurther(t, segments, last);
    Grouped(prefix + "_" + Title(t, Lower(t, key)), JoinTitled(t, segments), "_", Title(t, SegmentName(last)));
  }

  lemma Grouped(a: string, b: string, c: string, d: string)
    ensures a + (b + c + d) == a + b + c + d
  {
  }

  lemma {:induction false} NothingToCut(name: string, rest: string)
    requires '=' !in name
    ensures UntilEquals(name + "=" + rest) == name && UntilEquals(name) == name
  {
    if name != "" {
      assert (name + "=" + rest)[1..] == name[1..] + "=" + rest;
      NothingToCut(name[1..], rest);
      assert name == [name[0]] + name[1..];
    } else {
      assert name + "=" + rest == "=" + rest;
    }
  }

  lemma WildcardsByName(name: string)
    requires '=' !in name
    ensures SegmentName("{" + name + "}") == name
    ensures SegmentName("{" + name + "=**}") == name
    ensures name != "" && name[0] != '{' ==> SegmentName(name) == name
  {
    var one, all := "{" + name + "}", "{" + name + "=**}";
    assert one[1..] == name + "}" && (name + "}")[..|name|] == name;
    assert all[1..] == name + "=**}" && (name + "=**}")[..|name| + 3] == name + "=" + "**";
    NothingToCut(name, "**");
  }

  function RouteOf(o: Operation): string { ServedRoute(o.path) }

  function IdOf(info: Info, o: Operation): string {
    OperationId(info.letters, info.prefix, MethodKey(info.letters, o), RouteOf(o))
  }

  /** What an operation is offered to a model under. */
  function OfferedName(info: Info, o: Operation): string {
    if o.tool != "" then o.tool else IdOf(info, o)
  }

  // --- markers ---

  /** Only a read of this backend's own, answered once, is offered. */
  predicate Offered(info: Info, o: Operation) {
    info.audience != "" && !o.exclude && !o.streaming && ReadOnly(o.policy)
  }

  function MarkingOf(info: Info, o: Operation, i: nat): Marking {
    if Offered(info, o) then info.marks(i, OfferedName(info, o)) else NotDerivable
  }

  // --- the document ---

  /** What the loop over the operations works out of one of them. */
  datatype Facts = Facts(
    fault: Option<OpFault>, route: string, key: string, id: string, tool: string, marking: Marking, name: string)

  function FactsOf(info: Info, o: Operation, i: nat): Facts {
    Facts(
      Validate(info.letters, o), RouteOf(o), MethodKey(info.letters, o), IdOf(info, o), o.tool,
      MarkingOf(info, o, i), OfferedName(info, o))
  }

  function AllFacts(info: Info, ops: seq<Operation>): seq<Facts> {
    seq(|ops|, i requires 0 <= i < |ops| => FactsOf(info, ops[i], i))
  }

  function EndpointOf(f: Facts, i: int): Endpoint {
    Endpoint(f.id, i, if f.marking == Marker then Some(f.name) else None)
  }

  predicate SameRow(a: Facts, b: Facts) { a.route == b.route && a.key == b.key }

  predicate SameTool(a: Facts, b: Facts) { a.tool != "" && a.tool == b.tool }

  predicate Apart(a: Facts, b: Facts) {
    !SameRow(a, b) && a.id != b.id && !SameTool(a, b)
  }

  predicate Sound(f: Facts) { f.fault == None && f.marking != MarkerError }

  /** Operations a document can be rendered of: each valid and markable, and no two
      sharing a row, an id or a tool's name. */
  predicate AllApart(fs: seq<Facts>) {
    (forall i :: 0 <= i < |fs| ==> Sound(fs[i])) && (forall i, j :: 0 <= i < j < |fs| ==> Apart(fs[i], fs[j]))
  }

  predicate Renderable(info: Info, ops: seq<Operation>) {
    AllApart(AllFacts(info, ops))
  }

  predicate Row(paths: Paths, route: string, key: string) {
    route in paths && key in paths[route]
  }

  predicate RowIsOf(e: Endpoint, route: string, key: string, fs: seq<Facts>) {
    0 <= e.op < |fs| && fs[e.op].route == route && fs[e.op].key == key && e == EndpointOf(fs[e.op], e.op)
  }

  /** Each operation has its row, and there is no other row. */
  ghost predicate Rows(paths: Paths, fs: seq<Facts>) {
    && (forall i :: 0 <= i < |fs| ==> Row(paths, fs[i].route, fs[i].key))
    && (forall route, key :: Row(paths, route, key) ==> RowIsOf(paths[route][key], route, key, fs))
  }

  ghost predicate IsDocument(info: Info, paths: Paths, ops: seq<Operation>) {
    Rows(paths, AllFacts(info, ops))
  }

  /** Which ids and tool names are taken. */
  predicate Names(ids: map<string, int>, tools: map<string, int>, fs: seq<Facts>) {
    && (forall i :: 0 <= i < |fs| ==> fs[i].id in ids && (fs[i].tool != "" ==> fs[i].tool in tools))
    && (forall id :: id in ids ==> 0 <= ids[id] < |fs| && fs[ids[id]].id == id)
    && (forall tool :: tool in tools ==> 0 <= tools[tool] < |fs| && fs[tools[tool]].tool == tool && tool != "")
  }

  /** What a refusal says of the i-th operation. */
  ghost predicate Refused(fs: seq<Facts>, e: RenderFault) {
    e.i < |fs| &&
    match e
    case Unrenderable(i, fault) => fs[i].fault == Some(fault)
    case RowTwice(i) => exists k :: 0 <= k < i && SameRow(fs[k], fs[i])
    case SharedId(i) => exists k :: 0 <= k < i && fs[k].id == fs[i].id
    case SharedTool(i) => exists k :: 0 <= k < i && SameTool(fs[k], fs[i])
    case MarkerFailed(i) => fs[i].marking == MarkerError
  }

  /** The three tables the loop fills. */
  datatype Drawn = Drawn(paths: Paths, ids: map<string, int>, tools: map<string, int>)

  /** They are of these operations, which can be rendered together. */
  ghost predicate Draws(d: Drawn, fs: seq<Facts>) {
    AllApart(fs) && Rows(d.paths, fs) && Names(d.ids, d.tools, fs)
  }

  predicate Free(d: Drawn, f: Facts) {
    Sound(f) && !Row(d.paths, f.route, f.key) && f.id !in d.ids && (f.tool != "" ==> f.tool !in d.tools)
  }

  /** What keeps an operation from following those drawn. */
  function FaultOf(d: Drawn, f: Facts, i: nat): (e: Option<RenderFault>)
    ensures e == None <==> Free(d, f)
    ensures e.Some? ==> e.value.i == i
  {
    if f.fault.Some? then Some(Unrenderable(i, f.fault.value))
    else if Row(d.paths, f.route, f.key) then Some(RowTwice(i))
    else if f.id in d.ids then Some(SharedId(i))
    else if f.tool != "" && f.tool in d.tools then Some(SharedTool(i))
    else if f.marking == MarkerError then Some(MarkerFailed(i))
    else None
  }

  function Extend(d: Drawn, f: Facts, i: int): Drawn {
    var under := if f.route in d.paths then d.paths[f.route] else map[];
    Drawn(
      d.paths[f.route := under[f.key := EndpointOf(f, i)]],
      d.ids[f.id := i],
      if f.tool != "" then d.tools[f.tool := i] else d.tools)
  }

  method Render(info: Info, ops: seq<Operation>) returns (r: Result<Paths, RenderFault>)
    ensures r.Ok? <==> Renderable(info, ops)
    ensures r.Ok? ==> IsDocument(info, r.value, ops)
    ensures r.Err? ==> Refused(AllFacts(info, ops), r.error)
  {
    ghost var fs := AllFacts(info, ops);
    var d := Drawn(map[], map[], map[]);
    for i := 0 to |ops|
      invariant Draws(d, fs[..i])
    {
      var f := FactsOf(info, ops[i], i);
      var fault := FaultOf(d, f, i);
      if fault.Some? {
        FaultIsReal(d, fs, i);
        return Err(fault.value);
      }
      Extended(d, fs, i);
      d := Extend(d, f, i);
    }
    assert fs[..|ops|] == fs;
    return Ok(d.paths);
  }

  lemma FaultIsReal(d: Drawn, fs: seq<Facts>, i: nat)
    requires i < |fs| && Rows(d.paths, fs[..i]) && Names(d.ids, d.tools, fs[..i]) && FaultOf(d, fs[i], i).Some?
    ensures Refused(fs, FaultOf(d, fs[i], i).value) && !AllApart(fs)
  {
    if Row(d.paths, fs[i].route, fs[i].key) { RowIsTaken(d.paths, fs, i); }
    if fs[i].id in d.ids { IdIsTaken(d, fs, i); }
    if fs[i].tool != "" && fs[i].tool in d.tools { ToolIsTaken(d, fs, i); }
    if !Sound(fs[i]) { NotSound(fs, i); }
  }

  lemma NotSound(fs: seq<Facts>, i: nat)
    requires i < |fs| && !Sound(fs[i])
    ensures !AllApart(fs)
  {
  }

  lemma RowIsTaken(paths: Paths, fs: seq<Facts>, i: nat)
    requires i < |fs| && Rows(paths, fs[..i]) && Row(paths, fs[i].route, fs[i].key)
    ensures Refused(fs, RowTwice(i)) && !AllApart(fs)
  {
  }

  lemma IdIsTaken(d: Drawn, fs: seq<Facts>, i: nat)
    requires i < |fs| && Names(d.ids, d.tools, fs[..i]) && fs[i].id in d.ids
    ensures Refused(fs, SharedId(i)) && !AllApart(fs)
  {
  }

  lemma ToolIsTaken(d: Drawn, fs: seq<Facts>, i: nat)
    requires i < |fs| && Names(d.ids, d.tools, fs[..i]) && fs[i].tool in d.tools
    ensures Refused(fs, SharedTool(i)) && !AllApart(fs)
  {
  }

  lemma Extended(d: Drawn, fs: seq<Facts>, i: nat)
    requires i < |fs| && Draws(d, fs[..i]) && Free(d, fs[i])
    ensures Draws(Extend(d, fs[i], i), fs[..i + 1])
  {
    assert fs[..i + 1] == fs[..i] + [fs[i]];
    OneMoreRow(d, fs[..i], fs[i]);
    OneMoreApart(d, fs[..i], fs[i]);
    OneMoreName(d, fs[..i], fs[i]);
  }

  lemma OneMoreApart(d: Drawn, fs: seq<Facts>, f: Facts)
    requires Draws(d, fs) && Free(d, f)
    ensures AllApart(fs + [f])
  {
    forall i | 0 <= i < |fs| ensures Apart(fs[i], f) {
      assert Row(d.paths, fs[i].route, fs[i].key);
    }
    ApartAndOneMore(fs, f);
  }

  lemma ApartAndOneMore(fs: seq<Facts>, f: Facts)
    requires AllApart(fs) && Sound(f) && forall i :: 0 <= i < |fs| ==> Apart(fs[i], f)
    ensures AllApart(fs + [f])
  {
  }

  lemma OneMoreName(d: Drawn, fs: seq<Facts>, f: Facts)
    requires Names(d.ids, d.tools, fs) && Free(d, f)
    ensures Names(Extend(d, f, |fs|).ids, Extend(d, f, |fs|).tools, fs + [f])
  {
  }

  lemma OneMoreRow(d: Drawn, fs: seq<Facts>, f: Facts)
    requires Rows(d.paths, fs) && !Row(d.paths, f.route, f.key)
    ensures Rows(Extend(d, f, |fs|).paths, fs + [f])
  {
  }

  // --- the names models are offered ---

  lemma CapitalIsNoToolName(head: string, word: string, rest: string)
    requires word != "" && IsUpper(word[0])
    ensures !ToolName(head + word + rest)
  {
    assert (head + word + rest)[|head|] == word[0] && !ToolChar(word[0]);
  }

  /** A method's initial is a capital, however it was spelled. */
  lemma TitleOfAMethod(t: Table, o: Operation)
    requires LikeUnicode(t) && Verb(t, o) in SERVED
    ensures var word := Title(t, Lower(t, MethodKey(t, o))); word != "" && IsUpper(word[0])
  {
  }

  /** A tool's name has no capital, and an operationId always has one: its
      method's initial. */
  lemma IdIsNoToolName(info: Info, o: Operation)
    requires LikeUnicode(info.letters) && Validate(info.letters, o) == None
    ensures !ToolName(IdOf(info, o))
  {
    TitleOfAMethod(info.letters, o);
    CapitalIsNoToolName(
      info.prefix + "_", Title(info.letters, Lower(info.letters, MethodKey(info.letters, o))),
      JoinTitled(info.letters, T.Split(Trimmed(RouteOf(o)), '/')));
  }

  /** An offered name is the owner's, which could be no id, or the id. */
  predicate WellOffered(f: Facts) {
    if f.tool != "" then f.name == f.tool && ToolName(f.name) else f.name == f.id && !ToolName(f.name)
  }

  lemma NameOfOffered(info: Info, o: Operation, i: nat)
    requires LikeUnicode(info.letters) && Validate(info.letters, o) == None
    ensures WellOffered(FactsOf(info, o, i))
  {
    IdIsNoToolName(info, o);
  }

  lemma OfferedApart(f: Facts, g: Facts)
    requires Apart(f, g) && WellOffered(f) && WellOffered(g)
    ensures f.name != g.name
  {
  }

  /** Every operation a rendered document marks is marked under a name no other
      is, whether its owner named it or its id stands in. */
  lemma OfferedNamesDiffer(info: Info, ops: seq<Operation>, paths: Paths, r: string, k: string, s: string, l: string)
    requires LikeUnicode(info.letters) && Renderable(info, ops) && IsDocument(info, paths, ops)
    requires Row(paths, r, k) && Row(paths, s, l) && (r, k) != (s, l)
    requires paths[r][k].marked.Some? && paths[s][l].marked.Some?
    ensures paths[r][k].marked != paths[s][l].marked
  {
    var i := OpOfRow(info, ops, paths, r, k);
    var j := OpOfRow(info, ops, paths, s, l);
    var f, g := FactsOf(info, ops[i], i), FactsOf(info, ops[j], j);
    TwoOfThem(AllFacts(info, ops), i, j);
    NameOfOffered(info, ops[i], i);
    NameOfOffered(info, ops[j], j);
    if Apart(f, g) { OfferedApart(f, g); } else { OfferedApart(g, f); }
  }

  lemma OpOfRow(info: Info, ops: seq<Operation>, paths: Paths, r: string, k: string) returns (i: nat)
    requires Renderable(info, ops) && IsDocument(info, paths, ops) && Row(paths, r, k)
    ensures i < |ops| && Validate(info.letters, ops[i]) == None
    ensures var f := FactsOf(info, ops[i], i);
            AllFacts(info, ops)[i] == f && f.route == r && f.key == k && paths[r][k] == EndpointOf(f, i)
  {
    var fs := AllFacts(info, ops);
    assert RowIsOf(paths[r][k], r, k, fs);
    i := paths[r][k].op;
    assert Sound(fs[i]);
  }

  lemma TwoOfThem(fs: seq<Facts>, i: nat, j: nat)
    requires AllApart(fs) && i < |fs| && j < |fs| && i != j
    ensures Apart(fs[i], fs[j]) || Apart(fs[j], fs[i])
  {
  }

  // --- what is marked ---

  /** An operation a model may be offered: this backend's own, for its own audience,
      one finite call, and nothing but a read. */
  predicate MayBeOffered(info: Info, o: Operation) {
    info.audience != "" && !o.exclude && !o.streaming && AsksOnlyToRead(o.policy)
  }

  predicate CanBeRendered(info: Info, o: Operation, i: nat) {
    && CanBeDeclared(info.letters, o)
    && (MayBeOffered(info, o) ==> info.marks(i, if o.tool == "" then IdOf(info, o) else o.tool) != MarkerError)
  }

  predicate CanBeBeside(info: Info, a: Operation, b: Operation) {
    && !(ServedRoute(a.path) == ServedRoute(b.path) && MethodKey(info.letters, a) == MethodKey(info.letters, b))
    && IdOf(info, a) != IdOf(info, b) && (a.tool == "" || a.tool != b.tool)
  }

  lemma SoundIff(info: Info, o: Operation, i: nat)
    ensures Sound(FactsOf(info, o, i)) <==> CanBeRendered(info, o, i)
  {
    ValidIff(info.letters, o);
    ReadOnlyIff(o.policy);
  }

  /** A document is rendered exactly when each operation can be declared and the
      library makes no error of one that may be offered, and no two are one row, have
      one id or claim one tool's name. */
  lemma RenderableIff(info: Info, ops: seq<Operation>)
    ensures Renderable(info, ops) <==>
            && (forall i :: 0 <= i < |ops| ==> CanBeRendered(info, ops[i], i))
            && (forall i, j :: 0 <= i < j < |ops| ==> CanBeBeside(info, ops[i], ops[j]))
  {
    var fs := AllFacts(info, ops);
    forall i | 0 <= i < |ops| ensures Sound(fs[i]) <==> CanBeRendered(info, ops[i], i) { SoundIff(info, ops[i], i); }
    forall i, j | 0 <= i < j < |ops| ensures Apart(fs[i], fs[j]) <==> CanBeBeside(info, ops[i], ops[j]) {
      assert fs[i] == FactsOf(info, ops[i], i) && fs[j] == FactsOf(info, ops[j], j);
    }
  }

  /** A published row is marked exactly when its operation may be offered and the
      library marks it, under the name its owner gave it, or else the row's own id. */
  lemma MarkedIff(info: Info, ops: seq<Operation>, paths: Paths, route: string, key: string)
    requires Renderable(info, ops) && IsDocument(info, paths, ops) && Row(paths, route, key)
    ensures var e := paths[route][key];
      && 0 <= e.op < |ops|
      && var o := ops[e.op];
         && route == ServedRoute(o.path) && key == Lower(info.letters, if o.spelled == "" then "get" else o.spelled)
         && e.id == OperationId(info.letters, info.prefix, key, route)
         && var name := if o.tool == "" then e.id else o.tool;
            e.marked == if MayBeOffered(info, o) && info.marks(e.op, name) == Marker then Some(name) else None
  {
    var i := OpOfRow(info, ops, paths, route, key);
    ReadOnlyIff(ops[i].policy);
  }
}
