/** The definitions of an interface document: a walk over message descriptors,
    which may refer to each other in cycles, filling one shared table. */
module SchemaWalk {
  import opened Wrappers
  import opened Text
  import opened Casing

  /** A field's kind; a map field's is that of its values. */
  datatype Kind =
    | StringKind | BytesKind | BoolKind | Signed32 | Unsigned32 | Signed64 | Unsigned64 | FloatKind | DoubleKind
    | EnumKind(of: string, names: seq<string>)
    | MessageKind(of: string)

  datatype Cardinality = Singular | Repeated | MapTo

  datatype Field = Field(jsonName: string, cardinality: Cardinality, kind: Kind)

  datatype Schema =
    | Typed(kind: string, format: string)
    | OneOf(names: seq<string>)
    | Anything
    | Ref(definition: string)
    | ArrayOf(items: Schema)
    | ObjectOf(values: Schema)

  /** An entry of the table. A placeholder stands for a message still being
      described. */
  datatype Definition =
    | Placeholder
    | ErrorObject
    | Closed(properties: map<string, Schema>)

  type Definitions = map<string, Definition>

  const ERROR_NAME := "Error"

  /** The well-known types, in their JSON form. */
  const WELL_KNOWN: map<string, Schema> := map[
    "google.protobuf.Timestamp" := Typed("string", "date-time"),
    "google.protobuf.Duration" := Typed("string", ""),
    "google.protobuf.FieldMask" := Typed("string", ""),
    "google.protobuf.Struct" := Typed("object", ""),
    "google.protobuf.Value" := Anything,
    "google.protobuf.Any" := Anything,
    "google.protobuf.ListValue" := ArrayOf(Anything),
    "google.protobuf.Empty" := Typed("object", "")
  ]

  /** Message descriptors by full name, beside the types that are written in a
      form of their own instead of being described. */
  datatype Descriptors = Descriptors(messages: map<string, seq<Field>>, known: map<string, Schema>)

  function TitleAll(parts: seq<string>): string {
    if parts == [] then "" else Title(ASCII, parts[0]) + TitleAll(parts[1..])
  }

  /** "documents.v1.Document" is described as "DocumentsV1Document". */
  function DefinitionName(t: string): string {
    TitleAll(Split(t))
  }

  /** A name letter by letter: the dots go, and a letter that begins it or stood
      behind a dot is raised. */
  function Raised(t: string, first: bool): string {
    if t == [] then ""
    else if t[0] == '.' then Raised(t[1..], true)
    else [if first && 'a' <= t[0] <= 'z' then t[0] - 'a' + 'A' else t[0]] + Raised(t[1..], false)
  }

  lemma {:induction false} RestIsRaised(t: string)
    ensures Split(t)[0] + TitleAll(Split(t)[1..]) == Raised(t, false)
    ensures TitleAll(Split(t)) == Raised(t, true)
  {
    if t != [] {
      RestIsRaised(t[1..]);
      var rest := Split(t[1..]);
      if t[0] == '.' {
        assert ([""] + rest)[1..] == rest;
      } else {
        var head := [t[0]] + rest[0];
        assert ([head] + rest[1..])[1..] == rest[1..];
        assert head[1..] == rest[0];
      }
    }
  }

  /** That is a definition's name. */
  lemma NameIsRaised(t: string)
    ensures DefinitionName(t) == Raised(t, true)
  {
    RestIsRaised(t);
  }

  /** No well-known form refers to a definition, so a graph that is written with
      them is well formed as far as they go. */
  lemma WellKnownFormsReferToNothing(t: string)
    requires t in WELL_KNOWN
    ensures Refs(WELL_KNOWN[t]) == {}
  {
  }

  // --- what the walk answers, as values ---

  function SchemaOf(g: Descriptors, t: string): Schema {
    if t in g.known then g.known[t] else Ref(DefinitionName(t))
  }

  function SingularOf(g: Descriptors, kind: Kind): Schema {
    match kind
    case StringKind => Typed("string", "")
    case BytesKind => Typed("string", "byte")
    case BoolKind => Typed("boolean", "")
    case Signed32 => Typed("integer", "int32")
    case Unsigned32 => Typed("integer", "int64")
    case Signed64 => Typed("string", "int64")
    case Unsigned64 => Typed("string", "uint64")
    case FloatKind => Typed("number", "float")
    case DoubleKind => Typed("number", "double")
    case EnumKind(_, names) => OneOf(names)
    case MessageKind(of) => SchemaOf(g, of)
  }

  function Labelled(cardinality: Cardinality, inner: Schema): Schema {
    match cardinality
    case Singular => inner
    case Repeated => ArrayOf(inner)
    case MapTo => ObjectOf(inner)
  }

  /** A message's properties; of two fields with one JSON name the later stays. */
  function PropertiesOf(g: Descriptors, fields: seq<Field>): map<string, Schema> {
    if fields == [] then map[]
    else
      var last := fields[|fields| - 1];
      PropertiesOf(g, fields[..|fields| - 1])[last.jsonName := Labelled(last.cardinality, SingularOf(g, last.kind))]
  }

  /** The definitions a schema refers to. */
  function Refs(s: Schema): set<string> {
    match s
    case Ref(definition) => {definition}
    case ArrayOf(items) => Refs(items)
    case ObjectOf(values) => Refs(values)
    case _ => {}
  }

  predicate RefsIn(d: Definition, names: set<string>) {
    d.Closed? ==> forall p :: p in d.properties ==> Refs(d.properties[p]) <= names
  }

  // --- the descriptor graph ---

  function Mentions(fields: seq<Field>): set<string> {
    set i | 0 <= i < |fields| && fields[i].kind.MessageKind? :: fields[i].kind.of
  }

  /** The messages a message's own definition goes on to. A well-known one has none. */
  function Edges(g: Descriptors, t: string): set<string>
  {
    if t in g.messages && t !in g.known then Mentions(g.messages[t]) else {}
  }

  /** Every message mentioned is known, or well-known; and a well-known type's
      form refers to nothing. */
  predicate WellFormed(g: Descriptors) {
    && (forall t :: t in g.messages ==> Known(g, Mentions(g.messages[t])))
    && (forall t :: t in g.known ==> Refs(g.known[t]) == {})
  }

  predicate Known(g: Descriptors, ts: set<string>) {
    forall t :: t in ts ==> t in g.messages || t in g.known
  }

  /** So messages that mention only each other and the well-known types, which are
      written in the runtime's own forms, are a graph all this is about. */
  lemma WithWellKnownIsWellFormed(messages: map<string, seq<Field>>)
    requires forall t :: t in messages ==> Mentions(messages[t]) <= messages.Keys + WELL_KNOWN.Keys
    ensures WellFormed(Descriptors(messages, WELL_KNOWN))
  {
    forall t | t in WELL_KNOWN ensures Refs(WELL_KNOWN[t]) == {} { WellKnownFormsReferToNothing(t); }
  }

  /** A set of messages nothing mentioned from inside leads out of. */
  ghost predicate ClosedUnder(g: Descriptors, reach: set<string>) {
    forall t :: t in reach ==> Edges(g, t) <= reach
  }

  // --- what one call of the walk leaves behind ---

  /** The entry a message is described by. */
  ghost predicate Describes(g: Descriptors, u: string, name: string, d: Definition) {
    u in g.messages && u !in g.known && DefinitionName(u) == name && d == Closed(PropertiesOf(g, g.messages[u]))
  }

  /** Whatever the first fields mention is described, or written in a form of its own. */
  ghost predicate MentionedIn(g: Descriptors, fields: seq<Field>, n: nat, names: set<string>) {
    forall i :: 0 <= i < n <= |fields| ==> Refs(SingularOf(g, fields[i].kind)) <= names
  }

  /** A new entry describes a message that can be reached, and nothing that
      message mentions is missing. */
  ghost predicate NewEntry(g: Descriptors, reach: set<string>, after: Definitions, name: string)
    requires name in after
  {
    exists u ::
      && u in reach && Describes(g, u, name, after[name])
      && MentionedIn(g, g.messages[u], |g.messages[u]|, after.Keys)
  }

  /** Old entries, placeholders among them, stay as they were; the new ones are
      complete. */
  ghost predicate Grew(g: Descriptors, reach: set<string>, before: Definitions, after: Definitions) {
    && (forall name :: name in before ==> name in after && after[name] == before[name])
    && (forall name :: name in after && name !in before ==> NewEntry(g, reach, after, name))
  }

  lemma GrewTwice(g: Descriptors, reach: set<string>, before: Definitions, middle: Definitions, after: Definitions)
    requires Grew(g, reach, before, middle) && Grew(g, reach, middle, after)
    ensures Grew(g, reach, before, after)
  {
  }

  lemma OneMoreField(g: Descriptors, fields: seq<Field>, i: nat)
    requires i < |fields|
    ensures PropertiesOf(g, fields[..i + 1])
         == PropertiesOf(g, fields[..i])[
              fields[i].jsonName := Labelled(fields[i].cardinality, SingularOf(g, fields[i].kind))]
  {
    assert fields[..i + 1][..i] == fields[..i];
  }

  /** The names the walk over g may use. */
  ghost function Names(g: Descriptors): set<string> {
    set t | t in g.messages && t !in g.known :: DefinitionName(t)
  }

  /** A message's own definition, filled in once its fields are described. */
  lemma FilledIn(
      g: Descriptors, reach: set<string>, t: string, name: string, before: Definitions, walked: Definitions,
      after: Definitions)
    requires t in g.messages && t in reach && Describes(g, t, name, Closed(PropertiesOf(g, g.messages[t])))
    requires name !in before
    requires Grew(g, reach, before[name := Placeholder], walked)
    requires after == walked[name := Closed(PropertiesOf(g, g.messages[t]))]
    requires MentionedIn(g, g.messages[t], |g.messages[t]|, walked.Keys)
    ensures Grew(g, reach, before, after)
  {
  }

  lemma FewerNames(g: Descriptors, t: string, before: set<string>, later: set<string>)
    requires t in g.messages && t !in g.known && DefinitionName(t) !in before
    requires before + {DefinitionName(t)} <= later
    ensures |Names(g) - later| < |Names(g) - before|
  {
    var a, b := Names(g) - later, Names(g) - before;
    assert DefinitionName(t) in b && DefinitionName(t) !in a && a <= b - {DefinitionName(t)};
    SubsetIsNoLarger(a, b - {DefinitionName(t)});
  }

  /** The placeholders of a table are exactly these. */
  ghost predicate Pending(defs: Definitions, stack: set<string>) {
    forall name :: name in stack <==> name in defs && defs[name].Placeholder?
  }

  lemma OneFilledIn(walked: Definitions, stack: set<string>, name: string, properties: map<string, Schema>)
    requires Pending(walked, stack + {name}) && name !in stack
    ensures Pending(walked[name := Closed(properties)], stack)
  {
  }

  const START: Definitions := map[ERROR_NAME := ErrorObject]

  predicate RootsIn(g: Descriptors, roots: seq<string>, names: set<string>) {
    forall t :: t in roots ==> Refs(SchemaOf(g, t)) <= names
  }

  /** A finished table: the error, and entries that describe messages reached
      from the roots, every root among them, with nothing mentioned missing. */
  ghost predicate Complete(g: Descriptors, roots: seq<string>, reach: set<string>, defs: Definitions) {
    Grew(g, reach, START, defs) && RootsIn(g, roots, defs.Keys)
  }

  lemma OneMoreRoot(
      g: Descriptors, reach: set<string>, roots: seq<string>, i: nat, middle: Definitions, after: Definitions)
    requires i < |roots| && RootsIn(g, roots[..i], middle.Keys) && Grew(g, reach, START, middle)
    requires Grew(g, reach, middle, after) && Refs(SchemaOf(g, roots[i])) <= after.Keys
    ensures RootsIn(g, roots[..i + 1], after.Keys) && Grew(g, reach, START, after)
  {
    GrewTwice(g, reach, START, middle, after);
    RootsStay(g, roots, i, middle.Keys, after.Keys);
  }

  lemma RootsStay(g: Descriptors, roots: seq<string>, i: nat, names: set<string>, more: set<string>)
    requires i < |roots| && RootsIn(g, roots[..i], names) && names <= more && Refs(SchemaOf(g, roots[i])) <= more
    ensures RootsIn(g, roots[..i + 1], more)
  {
    assert roots[..i + 1] == roots[..i] + [roots[i]];
  }

  class Generator {
    var definitions: Definitions
    /** The definitions of the messages being described: the calls under way. */
    ghost var stack: set<string>

    /** The placeholders are exactly the messages on the call stack. */
    ghost predicate Valid()
      reads this
    {
      Pending(definitions, stack)
    }

    constructor ()
      ensures Valid() && stack == {} && definitions == START
    {
      definitions, stack := START, {};
    }

    /** Describe a message: its schema, with a definition for it and for every
        message it reaches that has none yet. */
    method MessageSchema(g: Descriptors, t: string, ghost reach: set<string>) returns (s: Schema)
      requires WellFormed(g) && (t in g.messages || t in g.known)
      requires Valid() && t in reach && ClosedUnder(g, reach)
      modifies this
      ensures Valid() && stack == old(stack)
      ensures s == SchemaOf(g, t) && Refs(s) <= definitions.Keys
      ensures Grew(g, reach, old(definitions), definitions)
      decreases |Names(g) - definitions.Keys|, 1
    {
      if t in g.known {
        return g.known[t];
      }
      var name := DefinitionName(t);
      if name !in definitions {
        Define(g, t, reach);
      }
      s := Ref(name);
    }

    /** The branch of MessageSchema for a message that has no entry yet: a
        placeholder first, for the cycles, and the definition over it. */
    method Define(g: Descriptors, t: string, ghost reach: set<string>)
      requires WellFormed(g) && t in g.messages && t !in g.known && DefinitionName(t) !in definitions
      requires Valid() && t in reach && ClosedUnder(g, reach)
      modifies this
      ensures Valid() && stack == old(stack)
      ensures DefinitionName(t) in definitions && Grew(g, reach, old(definitions), definitions)
      decreases |Names(g) - definitions.Keys|, 0
    {
      var name := DefinitionName(t);
      ghost var before := definitions;
      definitions, stack := definitions[name := Placeholder], stack + {name};
      FewerNames(g, t, before.Keys, definitions.Keys);
      var properties := Properties(g, t, reach);
      ghost var walked := definitions;
      OneFilledIn(walked, old(stack), name, properties);
      FilledIn(g, reach, t, name, before, walked, walked[name := Closed(properties)]);
      definitions, stack := definitions[name := Closed(properties)], old(stack);
    }

    /** A message's properties, field by field. */
    method Properties(g: Descriptors, t: string, ghost reach: set<string>) returns (properties: map<string, Schema>)
      requires WellFormed(g) && t in g.messages && t !in g.known
      requires Valid() && t in reach && ClosedUnder(g, reach)
      modifies this
      ensures Valid() && stack == old(stack)
      ensures properties == PropertiesOf(g, g.messages[t])
      ensures MentionedIn(g, g.messages[t], |g.messages[t]|, definitions.Keys)
      ensures Grew(g, reach, old(definitions), definitions)
      decreases |Names(g) - definitions.Keys|, 4
    {
      var fields := g.messages[t];
      properties := map[];
      for i := 0 to |fields|
        invariant Valid() && stack == old(stack)
        invariant Grew(g, reach, old(definitions), definitions)
        invariant properties == PropertiesOf(g, fields[..i]) && MentionedIn(g, fields, i, definitions.Keys)
      {
        ghost var middle := definitions;
        SubsetIsNoLarger(Names(g) - definitions.Keys, Names(g) - old(definitions).Keys);
        var schema := FieldSchema(g, t, fields[i], reach);
        GrewTwice(g, reach, old(definitions), middle, definitions);
        OneMoreField(g, fields, i);
        properties := properties[fields[i].jsonName := schema];
      }
      assert fields[..|fields|] == fields;
    }

    method FieldSchema(g: Descriptors, ghost t: string, field: Field, ghost reach: set<string>) returns (s: Schema)
      requires WellFormed(g) && t in g.messages && t !in g.known && field in g.messages[t]
      requires Valid() && t in reach && ClosedUnder(g, reach)
      modifies this
      ensures Valid() && stack == old(stack)
      ensures s == Labelled(field.cardinality, SingularOf(g, field.kind))
      ensures Refs(SingularOf(g, field.kind)) <= definitions.Keys
      ensures Grew(g, reach, old(definitions), definitions)
      decreases |Names(g) - definitions.Keys|, 3
    {
      var inner := SingularSchema(g, t, field.kind, reach);
      match field.cardinality {
        case Singular => s := inner;
        case Repeated => s := ArrayOf(inner);
        case MapTo => s := ObjectOf(inner);
      }
    }

    method SingularSchema(g: Descriptors, ghost t: string, kind: Kind, ghost reach: set<string>) returns (s: Schema)
      requires WellFormed(g) && t in g.messages && t !in g.known
      requires (kind.MessageKind? ==> kind.of in Mentions(g.messages[t]))
      requires Valid() && t in reach && ClosedUnder(g, reach)
      modifies this
      ensures Valid() && stack == old(stack)
      ensures s == SingularOf(g, kind) && Refs(s) <= definitions.Keys
      ensures Grew(g, reach, old(definitions), definitions)
      decreases |Names(g) - definitions.Keys|, 2
    {
      match kind {
        case StringKind => s := Typed("string", "");
        case BytesKind => s := Typed("string", "byte");
        case BoolKind => s := Typed("boolean", "");
        case Signed32 => s := Typed("integer", "int32");
        case Unsigned32 => s := Typed("integer", "int64");
        case Signed64 => s := Typed("string", "int64");
        case Unsigned64 => s := Typed("string", "uint64");
        case FloatKind => s := Typed("number", "float");
        case DoubleKind => s := Typed("number", "double");
        case EnumKind(_, names) => s := OneOf(names);
        case MessageKind(of) => s := MessageSchema(g, of, reach);
      }
    }

    /** The messages of a document's operations, one after the other, into one
        table that starts with the error alone. */
    method DescribeAll(g: Descriptors, roots: seq<string>, ghost reach: set<string>) returns (schemas: seq<Schema>)
      requires WellFormed(g) && ClosedUnder(g, reach)
      requires forall t :: t in roots ==> t in reach && (t in g.messages || t in g.known)
      requires Valid() && stack == {} && definitions == START
      modifies this
      ensures |schemas| == |roots| && forall i :: 0 <= i < |roots| ==> schemas[i] == SchemaOf(g, roots[i])
      ensures Valid() && stack == {}
      ensures Complete(g, roots, reach, definitions)
    {
      schemas := [];
      for i := 0 to |roots|
        invariant Valid() && stack == {}
        invariant |schemas| == i && forall j :: 0 <= j < i ==> schemas[j] == SchemaOf(g, roots[j])
        invariant RootsIn(g, roots[..i], definitions.Keys) && Grew(g, reach, START, definitions)
      {
        ghost var middle := definitions;
        var schema := MessageSchema(g, roots[i], reach);
        OneMoreRoot(g, reach, roots, i, middle, definitions);
        schemas := schemas + [schema];
      }
      assert roots[..|roots|] == roots;
    }
  }

  /** No placeholder is left, and every reference anywhere in the document, in a
      definition or in an operation's own schema, resolves. */
  lemma EveryReferenceResolves(g: Descriptors, roots: seq<string>, reach: set<string>, defs: Definitions)
    requires Complete(g, roots, reach, defs)
    ensures forall name :: name in defs ==> !defs[name].Placeholder? && RefsIn(defs[name], defs.Keys)
    ensures forall t :: t in roots ==> Refs(SchemaOf(g, t)) <= defs.Keys
  {
    forall name | name in defs ensures !defs[name].Placeholder? && RefsIn(defs[name], defs.Keys) {
      EntryResolves(g, reach, defs, name);
    }
  }

  lemma EntryResolves(g: Descriptors, reach: set<string>, defs: Definitions, name: string)
    requires Grew(g, reach, START, defs) && name in defs
    ensures !defs[name].Placeholder? && RefsIn(defs[name], defs.Keys)
  {
    if name !in START {
      assert NewEntry(g, reach, defs, name);
      var u :| && u in reach && Describes(g, u, name, defs[name])
               && MentionedIn(g, g.messages[u], |g.messages[u]|, defs.Keys);
      PropertiesRefs(g, g.messages[u], |g.messages[u]|, defs.Keys);
      assert g.messages[u][..|g.messages[u]|] == g.messages[u];
    }
  }

  lemma {:induction false} PropertiesRefs(g: Descriptors, fields: seq<Field>, n: nat, names: set<string>)
    requires n <= |fields| && MentionedIn(g, fields, n, names)
    ensures RefsIn(Closed(PropertiesOf(g, fields[..n])), names)
  {
    if n > 0 {
      PropertiesRefs(g, fields, n - 1, names);
      OneMoreField(g, fields, n - 1);
      assert Refs(Labelled(fields[n - 1].cardinality, SingularOf(g, fields[n - 1].kind))) <= names;
    }
  }

  /** The messages that are described rather than written in a form of their own. */
  ghost predicate Described(g: Descriptors, t: string) {
    t in g.messages && t !in g.known
  }

  /** Exactly the messages reached from the roots: closed, and in every closed
      set that holds the roots. */
  ghost predicate IsReach(g: Descriptors, roots: seq<string>, reach: set<string>) {
    && ClosedUnder(g, reach) && (forall t :: t in roots ==> t in reach)
    && (forall other: set<string> :: ClosedUnder(g, other) && (forall t :: t in roots ==>
         t in other) ==> reach <= other)
  }

  ghost predicate Necessary(g: Descriptors, roots: seq<string>, t: string) {
    forall other: set<string> :: ClosedUnder(g, other) && (forall r :: r in roots ==> r in other) ==> t in other
  }

  /** Cyclic or not, a finite graph has such a set. */
  lemma ReachExists(g: Descriptors, roots: seq<string>) returns (reach: set<string>)
    requires WellFormed(g)
    ensures IsReach(g, roots, reach)
  {
    var all := (set r | r in roots) + g.messages.Keys + g.known.Keys;
    reach := set t | t in all && Necessary(g, roots, t);
    forall t | t in reach ensures Edges(g, t) <= reach {
      forall u | u in Edges(g, t) ensures u in all && Necessary(g, roots, u) {
        assert Known(g, Mentions(g.messages[t]));
      }
    }
    forall other: set<string> | ClosedUnder(g, other) && (forall r :: r in roots ==> r in other)
      ensures reach <= other
    {
      forall t | t in reach ensures t in other { assert Necessary(g, roots, t); }
    }
  }

  /** Messages that would share a definition are described alike, and none takes
      the error's. */
  ghost predicate Compatible(g: Descriptors, reach: set<string>) {
    && (forall t, u ::
          t in reach && u in reach && Described(g, t) && Described(g, u) && DefinitionName(t) == DefinitionName(u) ==>
            PropertiesOf(g, g.messages[t]) == PropertiesOf(g, g.messages[u]))
    && (forall t :: t in reach && Described(g, t) ==> DefinitionName(t) != ERROR_NAME)
  }

  ghost predicate Holds(g: Descriptors, defs: Definitions, t: string) {
    DefinitionName(t) in defs && Describes(g, t, DefinitionName(t), defs[DefinitionName(t)])
  }

  /** No two fields of a message share a JSON name, which protobuf sees to. */
  predicate Unambiguous(fields: seq<Field>) {
    forall i, j :: 0 <= i < j < |fields| ==> fields[i].jsonName != fields[j].jsonName
  }

  /** Every field then shows among its message's properties. */
  lemma {:induction false} FieldShows(g: Descriptors, fields: seq<Field>, n: nat, i: nat)
    requires i < n <= |fields| && Unambiguous(fields)
    ensures fields[i].jsonName in PropertiesOf(g, fields[..n])
    ensures PropertiesOf(g, fields[..n])[fields[i].jsonName] ==
              Labelled(fields[i].cardinality, SingularOf(g, fields[i].kind))
  {
    OneMoreField(g, fields, n - 1);
    if i < n - 1 { FieldShows(g, fields, n - 1, i); }
  }

  /** A finished table describes every reached message, each as it is, exactly
      when no two of them that differ share a definition name and none is named
      as the error is; and then it holds nothing else. */
  lemma DescribesEveryMessageIffCompatible(g: Descriptors, roots: seq<string>, reach: set<string>, defs: Definitions)
    requires WellFormed(g) && IsReach(g, roots, reach) && Complete(g, roots, reach, defs)
    requires forall t :: t in roots ==> t in g.messages || t in g.known
    requires forall t :: t in g.messages ==> Unambiguous(g.messages[t])
    ensures (forall t :: t in reach && Described(g, t) ==> Holds(g, defs, t)) <==> Compatible(g, reach)
    ensures Compatible(g, reach) ==>
              forall name :: name in defs <==> name == ERROR_NAME || exists t ::
                   t in reach && Described(g, t) && DefinitionName(t) == name
  {
    if Compatible(g, reach) {
      CompatibleIsDescribed(g, roots, reach, defs);
      forall name | name in defs && name != ERROR_NAME
        ensures exists t :: t in reach && Described(g, t) && DefinitionName(t) == name
      {
        assert NewEntry(g, reach, defs, name);
      }
    }
  }

  lemma CompatibleIsDescribed(g: Descriptors, roots: seq<string>, reach: set<string>, defs: Definitions)
    requires WellFormed(g) && IsReach(g, roots, reach) && Complete(g, roots, reach, defs) && Compatible(g, reach)
    requires forall t :: t in g.messages ==> Unambiguous(g.messages[t])
    ensures forall t :: t in reach && Described(g, t) ==> Holds(g, defs, t)
  {
    var there := set t | t in reach && (Described(g, t) ==> DefinitionName(t) in defs);
    forall t | t in there ensures Edges(g, t) <= there {
      if Described(g, t) { WhatItMentionsIsThere(g, roots, reach, defs, t); }
    }
    assert ClosedUnder(g, there);
    forall t | t in roots ensures t in there { }
    assert reach <= there;
    forall t | t in reach && Described(g, t)
      ensures Holds(g, defs, t)
    {
      assert t in there;
      IsItsOwn(g, roots, reach, defs, t);
    }
  }

  lemma IsItsOwn(g: Descriptors, roots: seq<string>, reach: set<string>, defs: Definitions, t: string)
    requires Complete(g, roots, reach, defs) && Compatible(g, reach)
    requires t in reach && Described(g, t) && DefinitionName(t) in defs
    ensures Holds(g, defs, t)
  {
  }

  /** What a described message goes on to is described too. */
  lemma WhatItMentionsIsThere(g: Descriptors, roots: seq<string>, reach: set<string>, defs: Definitions, t: string)
    requires Complete(g, roots, reach, defs) && Compatible(g, reach)
    requires t in reach && Described(g, t) && DefinitionName(t) in defs && Unambiguous(g.messages[t])
    ensures forall v :: v in Edges(g, t) && Described(g, v) ==> DefinitionName(v) in defs
  {
    IsItsOwn(g, roots, reach, defs, t);
    EntryResolves(g, reach, defs, DefinitionName(t));
    var fields := g.messages[t];
    forall v | v in Edges(g, t) && Described(g, v) ensures DefinitionName(v) in defs {
      var i :| 0 <= i < |fields| && fields[i].kind == MessageKind(v);
      MentionIsIn(g, fields, i, defs.Keys);
    }
  }

  lemma MentionIsIn(g: Descriptors, fields: seq<Field>, i: nat, names: set<string>)
    requires i < |fields| && Unambiguous(fields) && fields[i].kind.MessageKind? && fields[i].kind.of !in g.known
    requires RefsIn(Closed(PropertiesOf(g, fields)), names)
    ensures DefinitionName(fields[i].kind.of) in names
  {
    FieldShows(g, fields, |fields|, i);
    assert fields[..|fields|] == fields;
    assert Refs(SingularOf(g, fields[i].kind)) == {DefinitionName(fields[i].kind.of)};
  }

  /** The condition can fail: only the first letter of a part is raised and the
      dots go, so these two names are one definition, and this one is the error's. */
  lemma NamesCollide()
    ensures DefinitionName("a.B") == DefinitionName("AB") == "AB"
    ensures DefinitionName("error") == "Error" == ERROR_NAME
  {
    NameIsRaised("error");
  }
}
