/** What the published schemas mean: which JSON conforms to the definitions of a
    document, against what the protobuf JSON encoding writes for the messages they
    are of. */
module SchemaMeaning {
  import opened Wrappers
  import opened SchemaWalk

  /** A JSON value; a number is the number it is. */
  datatype Json =
    | JNull
    | JBool(truth: bool)
    | JNumber(number: real)
    | JString(text: string)
    | JArray(items: seq<Json>)
    | JObject(members: map<string, Json>)

  // --- the formats ---

  function Digits(n: nat): string {
    if n < 10 then ["0123456789"[n]] else Digits(n / 10) + ["0123456789"[n % 10]]
  }

  function Decimal(n: int): string {
    if n < 0 then "-" + Digits(-n) else Digits(n)
  }

  predicate Whole(r: real, low: int, high: int) {
    r.Floor as real == r && low <= r.Floor < high
  }

  ghost predicate IsDecimal(s: string, low: int, high: int) {
    exists n: int :: low <= n < high && s == Decimal(n)
  }

  function Power(n: nat): nat {
    if n == 0 then 1 else 2 * Power(n - 1)
  }

  /** Not above what so many bits, shifted so far, can hold. */
  predicate Magnitude(r: real, bits: nat, shift: nat) {
    var most := ((Power(bits) - 1) * Power(shift)) as real;
    -most <= r <= most
  }

  const ALPHABET: string := "ABCDEFGHIJKLMNOPQRSTUVWXYZabcdefghijklmnopqrstuvwxyz0123456789+/"

  /** Base64 with padding (section 4 of RFC 4648). */
  function Base64(bytes: seq<bv8>): string {
    if |bytes| == 0 then ""
    else if |bytes| == 1 then
      [ALPHABET[bytes[0] as int / 4], ALPHABET[bytes[0] as int % 4 * 16], '=', '=']
    else if |bytes| == 2 then
      [ALPHABET[bytes[0] as int / 4], ALPHABET[bytes[0] as int % 4 * 16 + bytes[1] as int / 16],
       ALPHABET[bytes[1] as int % 16 * 4], '=']
    else
      [ALPHABET[bytes[0] as int / 4], ALPHABET[bytes[0] as int % 4 * 16 + bytes[1] as int / 16],
       ALPHABET[bytes[1] as int % 16 * 4 + bytes[2] as int / 64], ALPHABET[bytes[2] as int % 64]]
      + Base64(bytes[3..])
  }

  ghost predicate IsBase64(s: string) {
    exists bytes :: s == Base64(bytes)
  }

  predicate DigitsAt(s: string, i: nat, n: nat) {
    i + n <= |s| && forall k :: i <= k < i + n ==> '0' <= s[k] <= '9'
  }

  predicate IsZone(s: string) {
    || s == "Z"
    || (|s| == 6 && (s[0] == '+' || s[0] == '-') && DigitsAt(s, 1, 2) && s[3] == ':' && DigitsAt(s, 4, 2))
  }

  /** A date and a time (section 5.6 of RFC 3339), as far as its letters go. */
  ghost predicate IsDateTime(s: string) {
    && |s| >= 20
    && DigitsAt(s, 0, 4) && s[4] == '-' && DigitsAt(s, 5, 2) && s[7] == '-' && DigitsAt(s, 8, 2) && s[10] == 'T'
    && DigitsAt(s, 11, 2) && s[13] == ':' && DigitsAt(s, 14, 2) && s[16] == ':' && DigitsAt(s, 17, 2)
    && (IsZone(s[19..]) || (s[19] == '.' && exists n: nat :: n > 0 && DigitsAt(s, 20, n) && IsZone(s[20 + n..])))
  }

  // --- what a schema says ---

  /** What the type and the format of a schema ask of a value. */
  ghost predicate HasType(kind: string, format: string, j: Json) {
    match j
    case JString(text) =>
      && kind == "string"
      && (format == "byte" ==> IsBase64(text))
      && (format == "int64" ==> IsDecimal(text, -0x8000_0000_0000_0000, 0x8000_0000_0000_0000))
      && (format == "uint64" ==> IsDecimal(text, 0, 0x1_0000_0000_0000_0000))
      && (format == "date-time" ==> IsDateTime(text))
    case JBool(_) => kind == "boolean"
    case JNumber(number) =>
      if kind == "integer" then
        && number.Floor as real == number
        && (format == "int32" ==> Whole(number, -0x8000_0000, 0x8000_0000))
        && (format == "int64" ==> Whole(number, -0x8000_0000_0000_0000, 0x8000_0000_0000_0000))
      else
        && kind == "number"
        && (format == "float" ==> Magnitude(number, 24, 104))
        && (format == "double" ==> Magnitude(number, 53, 971))
    case JObject(_) => kind == "object"
    case _ => false
  }

  /** Conformance to a schema, in a table of definitions. */
  ghost predicate Conforms(defs: Definitions, s: Schema, j: Json)
    decreases j
  {
    match s
    case Typed(kind, format) => HasType(kind, format, j)
    case OneOf(names) => j.JString? && j.text in names
    case Anything => true
    case ArrayOf(items) => j.JArray? && forall i :: 0 <= i < |j.items| ==> Conforms(defs, items, j.items[i])
    case ObjectOf(values) => j.JObject? && forall k :: k in j.members ==> Conforms(defs, values, j.members[k])
    case Ref(name) =>
      && name in defs
      && match defs[name]
         case Placeholder => true
         case ErrorObject =>
           j.JObject? && forall k :: k in j.members ==> k == "error" && j.members[k].JString?
         case Closed(properties) =>
           j.JObject? && forall k :: k in j.members ==>
             k in properties && Conforms(defs, properties[k], j.members[k])
  }

  // --- what is written of a message ---

  /** One value of a field: integers of 32 and of 64 bits are told apart, and so
      are a float that is no number, an enum's number that has no name and the value
      of google.protobuf.NullValue, which are written in ways of their own. */
  datatype Value =
    | Text(text: string)
    | Bytes(bytes: seq<bv8>)
    | Truth(truth: bool)
    | Small(n: int)
    | Large(n: int)
    | Float(r: real)
    | NotANumber(text: string)
    | Named(name: string)
    | Unnamed(number: int)
    | Null
    | Inner(message: Message)

  datatype Content =
    | One(value: Value)
    | List(values: seq<Value>)
    | Entries(entries: map<string, Value>)

  /** A message: its populated fields, by JSON name; or, of a type that has a form
      of its own, what that form is of. */
  datatype Message =
    | Populated(fields: map<string, Content>)
    | Stamp(text: string)
    | Spelled(text: string)
    | Structure(members: map<string, Json>)
    | Dynamic(json: Json)
    | Packed(members: map<string, Json>)
    | Dynamics(items: seq<Json>)
    | Empty
    | Wrapped(value: Value)

  /** Protobuf JSON: lists as arrays, maps as objects, 64-bit integers and bytes as
      strings, enums by name, and the types with a form of their own in it. */
  function Written(m: Message): Json
    decreases m
  {
    match m
    case Populated(fields) => JObject(map k | k in fields :: WrittenContent(fields[k]))
    case Stamp(text) => JString(text)
    case Spelled(text) => JString(text)
    case Structure(members) => JObject(members)
    case Dynamic(json) => json
    case Packed(members) => JObject(members)
    case Dynamics(items) => JArray(items)
    case Empty => JObject(map[])
    case Wrapped(value) => WrittenValue(value)
  }

  function WrittenContent(c: Content): Json
    decreases c
  {
    match c
    case One(value) => WrittenValue(value)
    case List(values) => JArray(seq(|values|, i requires 0 <= i < |values| => WrittenValue(values[i])))
    case Entries(entries) => JObject(map k | k in entries :: WrittenValue(entries[k]))
  }

  function WrittenValue(v: Value): Json
    decreases v
  {
    match v
    case Text(text) => JString(text)
    case Bytes(bytes) => JString(Base64(bytes))
    case Truth(truth) => JBool(truth)
    case Small(n) => JNumber(n as real)
    case Large(n) => JString(Decimal(n))
    case Float(r) => JNumber(r)
    case NotANumber(text) => JString(text)
    case Named(name) => JString(name)
    case Unnamed(number) => JNumber(number as real)
    case Null => JNull
    case Inner(message) => Written(message)
  }

  /** The scalars a message can be of: their wrappers are written as they are. */
  predicate IsWrapper(t: string) {
    t in {"google.protobuf.DoubleValue", "google.protobuf.FloatValue", "google.protobuf.Int64Value",
          "google.protobuf.UInt64Value", "google.protobuf.Int32Value", "google.protobuf.UInt32Value",
          "google.protobuf.BoolValue", "google.protobuf.StringValue", "google.protobuf.BytesValue"}
  }

  /** A message of a type. */
  ghost predicate MessageTyped(g: Descriptors, t: string, m: Message)
    decreases m
  {
    match m
    case Stamp(text) => t == "google.protobuf.Timestamp" && IsDateTime(text)
    case Spelled(text) => t == "google.protobuf.Duration" || t == "google.protobuf.FieldMask"
    case Structure(_) => t == "google.protobuf.Struct"
    case Dynamic(_) => t == "google.protobuf.Value"
    case Packed(_) => t == "google.protobuf.Any"
    case Dynamics(_) => t == "google.protobuf.ListValue"
    case Empty => t == "google.protobuf.Empty"
    case Wrapped(value) =>
      && IsWrapper(t) && Described(g, t) && |g.messages[t]| == 1
      && !value.Inner? && ValueTyped(g, g.messages[t][0].kind, value)
    case Populated(fields) =>
      && !IsWrapper(t) && Described(g, t)
      && forall k :: k in fields ==>
           exists i :: 0 <= i < |g.messages[t]| && g.messages[t][i].jsonName == k
                       && ContentTyped(g, g.messages[t][i], fields[k])
  }

  ghost predicate ContentTyped(g: Descriptors, field: Field, c: Content)
    decreases c
  {
    match c
    case One(value) => field.cardinality == Singular && ValueTyped(g, field.kind, value)
    case List(values) =>
      field.cardinality == Repeated && forall i :: 0 <= i < |values| ==> ValueTyped(g, field.kind, values[i])
    case Entries(entries) =>
      field.cardinality == MapTo && forall k :: k in entries ==> ValueTyped(g, field.kind, entries[k])
  }

  ghost predicate ValueTyped(g: Descriptors, kind: Kind, v: Value)
    decreases v
  {
    match kind
    case StringKind => v.Text?
    case BytesKind => v.Bytes?
    case BoolKind => v.Truth?
    case Signed32 => v.Small? && -0x8000_0000 <= v.n < 0x8000_0000
    case Unsigned32 => v.Small? && 0 <= v.n < 0x1_0000_0000
    case Signed64 => v.Large? && -0x8000_0000_0000_0000 <= v.n < 0x8000_0000_0000_0000
    case Unsigned64 => v.Large? && 0 <= v.n < 0x1_0000_0000_0000_0000
    case FloatKind => (v.Float? && Magnitude(v.r, 24, 104)) || IsNotANumber(v)
    case DoubleKind => (v.Float? && Magnitude(v.r, 53, 971)) || IsNotANumber(v)
    case EnumKind(of, names) =>
      if of == "google.protobuf.NullValue" then v.Null? else (v.Named? && v.name in names) || v.Unnamed?
    case MessageKind(of) => v.Inner? && MessageTyped(g, of, v.message)
  }

  predicate IsNotANumber(v: Value) {
    v.NotANumber? && v.text in {"NaN", "Infinity", "-Infinity"}
  }

  /** Nothing in it, at any depth, is a float that is no number, an enum's number
      without a name, a google.protobuf.NullValue, or a wrapper. */
  predicate Plain(m: Message)
    decreases m
  {
    match m
    case Populated(fields) => forall k :: k in fields ==> PlainContent(fields[k])
    case Wrapped(_) => false
    case _ => true
  }

  predicate PlainContent(c: Content)
    decreases c
  {
    match c
    case One(value) => PlainValue(value)
    case List(values) => forall i :: 0 <= i < |values| ==> PlainValue(values[i])
    case Entries(entries) => forall k :: k in entries ==> PlainValue(entries[k])
  }

  predicate PlainValue(v: Value)
    decreases v
  {
    match v
    case NotANumber(_) => false
    case Unnamed(_) => false
    case Null => false
    case Inner(message) => Plain(message)
    case _ => true
  }

  // --- the JSON of a type, without its schema ---

  /** The JSON a page may take for a message of a type: for a Timestamp a date and
      a time, for the other types with a form of their own that form, and otherwise
      an object of the type's fields by their JSON names. */
  ghost predicate Fits(g: Descriptors, t: string, j: Json)
    decreases j, 0
  {
    if t == "google.protobuf.Timestamp" then j.JString? && IsDateTime(j.text)
    else if t == "google.protobuf.Duration" || t == "google.protobuf.FieldMask" then j.JString?
    else if t == "google.protobuf.Struct" || t == "google.protobuf.Empty" then j.JObject?
    else if t == "google.protobuf.Value" || t == "google.protobuf.Any" then true
    else if t == "google.protobuf.ListValue" then j.JArray?
    else
      && t in g.messages && j.JObject?
      && forall k :: k in j.members ==>
           exists i :: 0 <= i < |g.messages[t]| && g.messages[t][i].jsonName == k
                       && FieldFits(g, g.messages[t][i], j.members[k])
  }

  /** For a list an array, for a map an object. */
  ghost predicate FieldFits(g: Descriptors, field: Field, j: Json)
    decreases j, 2
  {
    match field.cardinality
    case Singular => ValueFits(g, field.kind, j)
    case Repeated => j.JArray? && forall i :: 0 <= i < |j.items| ==> ValueFits(g, field.kind, j.items[i])
    case MapTo => j.JObject? && forall k :: k in j.members ==> ValueFits(g, field.kind, j.members[k])
  }

  /** For a 64-bit integer its decimal spelling, for a 32-bit one the number (for an
      unsigned one any of 64 bits), for an enum one of its names. */
  ghost predicate ValueFits(g: Descriptors, kind: Kind, j: Json)
    decreases j, 1
  {
    match kind
    case StringKind => j.JString?
    case BytesKind => j.JString? && IsBase64(j.text)
    case BoolKind => j.JBool?
    case Signed32 => j.JNumber? && Whole(j.number, -0x8000_0000, 0x8000_0000)
    case Unsigned32 => j.JNumber? && Whole(j.number, -0x8000_0000_0000_0000, 0x8000_0000_0000_0000)
    case Signed64 => j.JString? && IsDecimal(j.text, -0x8000_0000_0000_0000, 0x8000_0000_0000_0000)
    case Unsigned64 => j.JString? && IsDecimal(j.text, 0, 0x1_0000_0000_0000_0000)
    case FloatKind => j.JNumber? && Magnitude(j.number, 24, 104)
    case DoubleKind => j.JNumber? && Magnitude(j.number, 53, 971)
    case EnumKind(_, names) => j.JString? && j.text in names
    case MessageKind(of) => Fits(g, of, j)
  }

  // --- the schema of a type admits that JSON and no other ---

  /** A table that describes every message of a set, which nothing leads out of. */
  ghost predicate Covers(g: Descriptors, reach: set<string>, defs: Definitions) {
    && g.known == WELL_KNOWN
    && ClosedUnder(g, reach)
    && (forall t :: t in g.messages ==> Unambiguous(g.messages[t]))
    && (forall t :: t in reach ==> t in g.messages || t in g.known)
    && (forall t :: t in reach && Described(g, t) ==> Holds(g, defs, t))
  }

  /** The types that are not described, each by its form. */
  lemma KnownForms(t: string)
    ensures t in WELL_KNOWN <==>
            t in {"google.protobuf.Timestamp", "google.protobuf.Duration", "google.protobuf.FieldMask",
                  "google.protobuf.Struct", "google.protobuf.Value", "google.protobuf.Any",
                  "google.protobuf.ListValue", "google.protobuf.Empty"}
  {
  }

  lemma KnownConforms(g: Descriptors, defs: Definitions, t: string, j: Json)
    requires g.known == WELL_KNOWN && t in WELL_KNOWN
    ensures Conforms(defs, SchemaOf(g, t), j) <==> Fits(g, t, j)
  {
    KnownForms(t);
  }

  lemma {:induction false} MessageConforms(g: Descriptors, reach: set<string>, defs: Definitions, t: string, j: Json)
    requires Covers(g, reach, defs) && t in reach
    ensures Conforms(defs, SchemaOf(g, t), j) <==> Fits(g, t, j)
    decreases j, 0
  {
    if t in WELL_KNOWN {
      KnownConforms(g, defs, t, j);
    } else {
      KnownForms(t);
      if j.JObject? {
        forall k | k in j.members
          ensures MemberConforms(defs, PropertiesOf(g, g.messages[t]), k, j.members[k]) <==>
                  MemberFits(g, g.messages[t], k, j.members[k])
        {
          PropertyConforms(g, reach, defs, t, k, j.members[k]);
        }
      }
    }
  }

  ghost predicate MemberConforms(defs: Definitions, properties: map<string, Schema>, k: string, j: Json) {
    k in properties && Conforms(defs, properties[k], j)
  }

  ghost predicate MemberFits(g: Descriptors, fields: seq<Field>, k: string, j: Json) {
    exists i :: 0 <= i < |fields| && fields[i].jsonName == k && FieldFits(g, fields[i], j)
  }

  lemma {:induction false} PropertiesAreFields(g: Descriptors, fields: seq<Field>, n: nat, k: string)
    requires n <= |fields| && k in PropertiesOf(g, fields[..n])
    ensures exists i :: 0 <= i < n && fields[i].jsonName == k
  {
    if n > 0 {
      OneMoreField(g, fields, n - 1);
      if fields[n - 1].jsonName != k { PropertiesAreFields(g, fields, n - 1, k); }
    }
  }

  lemma {:induction false} PropertyConforms(
      g: Descriptors, reach: set<string>, defs: Definitions, t: string, k: string, j: Json)
    requires Covers(g, reach, defs) && t in reach && Described(g, t)
    ensures MemberConforms(defs, PropertiesOf(g, g.messages[t]), k, j) <==> MemberFits(g, g.messages[t], k, j)
    decreases j, 3
  {
    var fields := g.messages[t];
    assert fields[..|fields|] == fields;
    if k in PropertiesOf(g, fields) {
      PropertiesAreFields(g, fields, |fields|, k);
    }
    forall i | 0 <= i < |fields| && fields[i].jsonName == k
      ensures k in PropertiesOf(g, fields)
      ensures Conforms(defs, PropertiesOf(g, fields)[k], j) <==> FieldFits(g, fields[i], j)
    {
      FieldShows(g, fields, |fields|, i);
      FieldConforms(g, reach, defs, t, fields[i], j);
    }
  }

  lemma {:induction false} FieldConforms(
      g: Descriptors, reach: set<string>, defs: Definitions, t: string, field: Field, j: Json)
    requires Covers(g, reach, defs) && t in reach && Described(g, t) && field in g.messages[t]
    ensures Conforms(defs, Labelled(field.cardinality, SingularOf(g, field.kind)), j) <==> FieldFits(g, field, j)
    decreases j, 2
  {
    var inner := SingularOf(g, field.kind);
    match field.cardinality {
      case Singular => ValueConforms(g, reach, defs, t, field.kind, j);
      case Repeated =>
        if j.JArray? {
          forall i | 0 <= i < |j.items|
            ensures Conforms(defs, inner, j.items[i]) <==> ValueFits(g, field.kind, j.items[i])
          {
            ValueConforms(g, reach, defs, t, field.kind, j.items[i]);
          }
        }
      case MapTo =>
        if j.JObject? {
          forall k | k in j.members
            ensures Conforms(defs, inner, j.members[k]) <==> ValueFits(g, field.kind, j.members[k])
          {
            ValueConforms(g, reach, defs, t, field.kind, j.members[k]);
          }
        }
    }
  }

  lemma {:induction false} ValueConforms(
      g: Descriptors, reach: set<string>, defs: Definitions, t: string, kind: Kind, j: Json)
    requires Covers(g, reach, defs) && t in reach && Described(g, t)
    requires kind.MessageKind? ==> kind.of in Mentions(g.messages[t])
    ensures Conforms(defs, SingularOf(g, kind), j) <==> ValueFits(g, kind, j)
    decreases j, 1
  {
    if kind.MessageKind? {
      assert Edges(g, t) <= reach;
      MessageConforms(g, reach, defs, kind.of, j);
    } else {
      ScalarConforms(g, defs, kind, j);
    }
  }

  lemma ScalarConforms(g: Descriptors, defs: Definitions, kind: Kind, j: Json)
    requires !kind.MessageKind?
    ensures Conforms(defs, SingularOf(g, kind), j) <==> ValueFits(g, kind, j)
  {
  }

  /** What the roots reach is there. */
  lemma ReachIsThere(g: Descriptors, roots: seq<string>, reach: set<string>)
    requires WellFormed(g) && IsReach(g, roots, reach)
    requires forall t :: t in roots ==> t in g.messages || t in g.known
    ensures forall t :: t in reach ==> t in g.messages || t in g.known
  {
    var all := g.messages.Keys + g.known.Keys;
    forall t | t in all ensures Edges(g, t) <= all {
      if t in g.messages { assert Known(g, Mentions(g.messages[t])); }
    }
    assert ClosedUnder(g, all);
  }

  /** A finished table of a graph whose definition names are compatible, written with
      the runtime's own forms. */
  ghost predicate Finished(g: Descriptors, roots: seq<string>, reach: set<string>, defs: Definitions) {
    && WellFormed(g) && g.known == WELL_KNOWN
    && (forall t :: t in g.messages ==> Unambiguous(g.messages[t]))
    && (forall t :: t in roots ==> t in g.messages || t in g.known)
    && IsReach(g, roots, reach) && Compatible(g, reach) && Complete(g, roots, reach, defs)
  }

  lemma TablesCover(g: Descriptors, roots: seq<string>, reach: set<string>, defs: Definitions)
    requires Finished(g, roots, reach, defs)
    ensures Covers(g, reach, defs)
  {
    DescribesEveryMessageIffCompatible(g, roots, reach, defs);
    ReachIsThere(g, roots, reach);
  }

  /** The schema published for a message, in any finished table, admits exactly the
      JSON of its type. */
  lemma SchemaAdmitsItsJson(
      g: Descriptors, roots: seq<string>, reach: set<string>, defs: Definitions, t: string, j: Json)
    requires Finished(g, roots, reach, defs)
    requires t in reach
    ensures Conforms(defs, SchemaOf(g, t), j) <==> Fits(g, t, j)
  {
    TablesCover(g, roots, reach, defs);
    MessageConforms(g, reach, defs, t, j);
  }

  // --- what is written is of the type, unless ---

  lemma IsTheField(g: Descriptors, fields: seq<Field>, i: nat, j: Json)
    requires i < |fields| && Unambiguous(fields)
    ensures MemberFits(g, fields, fields[i].jsonName, j) <==> FieldFits(g, fields[i], j)
  {
  }

  lemma ObjectFits(g: Descriptors, t: string, j: Json)
    requires t !in WELL_KNOWN && t in g.messages && j.JObject?
    ensures Fits(g, t, j) <==> forall k :: k in j.members ==> MemberFits(g, g.messages[t], k, j.members[k])
  {
    KnownForms(t);
  }

  lemma {:induction false} WrittenFits(g: Descriptors, t: string, m: Message)
    requires g.known == WELL_KNOWN && forall u :: u in g.messages ==> Unambiguous(g.messages[u])
    requires MessageTyped(g, t, m)
    ensures Fits(g, t, Written(m)) <==> Plain(m)
    decreases m, 1
  {
    KnownForms(t);
    match m {
      case Populated(fields) =>
        PopulatedFits(g, t, fields);
      case Wrapped(value) => assert !WrittenValue(value).JObject?;
      case _ =>
    }
  }

  lemma {:induction false} PopulatedFits(g: Descriptors, t: string, fields: map<string, Content>)
    requires g.known == WELL_KNOWN && forall u :: u in g.messages ==> Unambiguous(g.messages[u])
    requires MessageTyped(g, t, Populated(fields))
    ensures Fits(g, t, Written(Populated(fields))) <==> forall k :: k in fields ==> PlainContent(fields[k])
    decreases Populated(fields), 0
  {
    var j := Written(Populated(fields));
    ObjectFits(g, t, j);
    forall k | k in fields
      ensures j.members[k] == WrittenContent(fields[k])
      ensures MemberFits(g, g.messages[t], k, j.members[k]) <==> PlainContent(fields[k])
    {
      var i :| 0 <= i < |g.messages[t]| && g.messages[t][i].jsonName == k
               && ContentTyped(g, g.messages[t][i], fields[k]);
      assert fields[k] < Populated(fields);
      ContentFits(g, g.messages[t][i], fields[k]);
      IsTheField(g, g.messages[t], i, j.members[k]);
    }
  }

  lemma {:induction false} ContentFits(g: Descriptors, field: Field, c: Content)
    requires g.known == WELL_KNOWN && forall u :: u in g.messages ==> Unambiguous(g.messages[u])
    requires ContentTyped(g, field, c)
    ensures FieldFits(g, field, WrittenContent(c)) <==> PlainContent(c)
    decreases c
  {
    match c {
      case One(value) => WrittenValueFits(g, field.kind, value);
      case List(values) =>
        forall i | 0 <= i < |values|
          ensures ValueFits(g, field.kind, WrittenContent(c).items[i]) <==> PlainValue(values[i])
        {
          WrittenValueFits(g, field.kind, values[i]);
        }
      case Entries(entries) =>
        forall k | k in entries
          ensures ValueFits(g, field.kind, WrittenContent(c).members[k]) <==> PlainValue(entries[k])
        {
          WrittenValueFits(g, field.kind, entries[k]);
        }
    }
  }

  lemma {:induction false} WrittenValueFits(g: Descriptors, kind: Kind, v: Value)
    requires g.known == WELL_KNOWN && forall u :: u in g.messages ==> Unambiguous(g.messages[u])
    requires ValueTyped(g, kind, v)
    ensures ValueFits(g, kind, WrittenValue(v)) <==> PlainValue(v)
    decreases v
  {
    if kind.MessageKind? { WrittenFits(g, kind.of, v.message); }
  }

  /** So the JSON of a message of any type the document reaches conforms to the
      schema published for it exactly when nothing in the message, at any depth, is
      a float that is no number, an enum's number without a name, a
      google.protobuf.NullValue or a wrapper. */
  lemma WrittenConformsIffPlain(
      g: Descriptors, roots: seq<string>, reach: set<string>, defs: Definitions, t: string, m: Message)
    requires Finished(g, roots, reach, defs)
    requires t in reach && MessageTyped(g, t, m)
    ensures Conforms(defs, SchemaOf(g, t), Written(m)) <==> Plain(m)
  {
    SchemaAdmitsItsJson(g, roots, reach, defs, t, Written(m));
    WrittenFits(g, t, m);
  }

  function Holding(k: string, v: Value): Message {
    Populated(map[k := One(v)])
  }

  lemma HoldingIsTyped(g: Descriptors, t: string, i: nat, v: Value)
    requires g.known == WELL_KNOWN && Described(g, t) && !IsWrapper(t)
    requires i < |g.messages[t]| && g.messages[t][i].cardinality == Singular
    requires ValueTyped(g, g.messages[t][i].kind, v)
    ensures MessageTyped(g, t, Holding(g.messages[t][i].jsonName, v))
    ensures Plain(Holding(g.messages[t][i].jsonName, v)) <==> PlainValue(v)
  {
    var k := g.messages[t][i].jsonName;
    var c: Content := One(v);
    assert Holding(k, v).fields[k] == c && ContentTyped(g, g.messages[t][i], c) && (PlainContent(c) <==> PlainValue(v));
  }

  /** There are such messages of every type with a double or an enum, and of every
      type with a string that is wrapped: with NaN, with a number the enum does not
      name, and with the string set. */
  lemma SomeDoNotConform(
      g: Descriptors, roots: seq<string>, reach: set<string>, defs: Definitions, t: string, i: nat, v: Value)
    requires Finished(g, roots, reach, defs)
    requires t in reach && Described(g, t) && !IsWrapper(t)
    requires i < |g.messages[t]| && g.messages[t][i].cardinality == Singular
    requires match g.messages[t][i].kind
             case DoubleKind => v == NotANumber("NaN")
             case EnumKind(of, _) => v == if of == "google.protobuf.NullValue" then Null else Unnamed(-1)
             case MessageKind(of) =>
               && of == "google.protobuf.StringValue" && of in g.messages
               && g.messages[of] == [Field("value", Singular, StringKind)] && v == Inner(Wrapped(Text("x")))
             case _ => false
    ensures var m := Holding(g.messages[t][i].jsonName, v);
            MessageTyped(g, t, m) && !Conforms(defs, SchemaOf(g, t), Written(m))
  {
    var kind := g.messages[t][i].kind;
    if kind.MessageKind? {
      KnownForms(kind.of);
      WrappedIsTyped(g, kind.of, "x");
    }
    HoldingIsTyped(g, t, i, v);
    WrittenConformsIffPlain(g, roots, reach, defs, t, Holding(g.messages[t][i].jsonName, v));
  }

  lemma WrappedIsTyped(g: Descriptors, t: string, text: string)
    requires t == "google.protobuf.StringValue" && Described(g, t)
    requires g.messages[t] == [Field("value", Singular, StringKind)]
    ensures MessageTyped(g, t, Wrapped(Text(text))) && !Plain(Wrapped(Text(text)))
  {
    assert ValueTyped(g, StringKind, Text(text));
  }
}
