/** Error results of tools on their way to a client: one that names an address
    this runtime dialled is replaced, and what is published is what was read. */
module ErrorScrub {
  import opened Wrappers

  // --- what is looked for ---

  predicate HasAt(text: string, part: string, i: int) {
    0 <= i <= |text| - |part| && text[i..i + |part|] == part
  }

  ghost predicate Contains(text: string, part: string) {
    exists i :: HasAt(text, part, i)
  }

  method ContainsAt(text: string, part: string) returns (found: bool)
    ensures found <==> Contains(text, part)
  {
    var i := 0;
    while i <= |text| - |part|
      invariant 0 <= i && forall k :: 0 <= k < i ==> !HasAt(text, part, k)
    {
      if text[i..i + |part|] == part {
        assert HasAt(text, part, i);
        return true;
      }
      i := i + 1;
    }
    return false;
  }

  /** A text names an address that was dialled; a blank one names nothing. */
  ghost predicate Names(dialled: seq<string>, text: string) {
    exists address :: address in dialled && address != "" && Contains(text, address)
  }

  method Named(dialled: seq<string>, text: string) returns (address: Option<string>)
    ensures address.Some? <==> Names(dialled, text)
    ensures address.Some? ==> address.value in dialled && Contains(text, address.value)
  {
    for i := 0 to |dialled|
      invariant forall k :: 0 <= k < i ==> dialled[k] == "" || !Contains(text, dialled[k])
    {
      if dialled[i] != "" {
        var found := ContainsAt(text, dialled[i]);
        if found {
          return Some(dialled[i]);
        }
      }
    }
    return None;
  }

  // --- structured content ---

  /** A document as it is written: an object's members in their order, a key as
      often as it is written, and anything else by its spelling. Strings are as a
      client decodes them. */
  datatype Json =
    | JPlain(text: string)
    | JString(text: string)
    | JArray(items: seq<Json>)
    | JObject(members: seq<Member>)

  datatype Member = Member(key: string, value: Json)

  /** What the document says to whoever reads it as it is written: every string,
      every key and every other spelling in it, at any depth. */
  ghost predicate Says(j: Json, s: string)
    decreases j
  {
    match j
    case JPlain(text) => text == s
    case JString(text) => text == s
    case JArray(items) => exists i :: 0 <= i < |items| && Says(items[i], s)
    case JObject(members) => exists i :: 0 <= i < |members| && (members[i].key == s || Says(members[i].value, s))
  }

  /** A document decoded: a key has one value. */
  datatype Decoded =
    | DPlain
    | DString(text: string)
    | DArray(items: seq<Decoded>)
    | DObject(members: map<string, Decoded>)

  /** Of members with one key the last is kept. */
  function Decode(j: Json): Decoded
    decreases j, 0
  {
    match j
    case JPlain(_) => DPlain
    case JString(text) => DString(text)
    case JArray(items) => DArray(seq(|items|, i requires 0 <= i < |items| => Decode(items[i])))
    case JObject(members) => DObject(DecodeMembers(j, |members|))
  }

  function DecodeMembers(j: Json, n: nat): map<string, Decoded>
    requires j.JObject? && n <= |j.members|
    decreases j, 0, n
  {
    if n == 0 then map[] else DecodeMembers(j, n - 1)[j.members[n - 1].key := Decode(j.members[n - 1].value)]
  }

  /** A string or a key of a decoded document, at any depth. */
  ghost predicate Holds(d: Decoded, s: string)
    decreases d
  {
    match d
    case DPlain => false
    case DString(text) => text == s
    case DArray(items) => exists i :: 0 <= i < |items| && Holds(items[i], s)
    case DObject(members) => exists k :: k in members && (k == s || Holds(members[k], s))
  }

  /** What decoding loses: no member with its key follows. */
  predicate Kept(members: seq<Member>, i: nat) {
    i < |members| && forall l :: i < l < |members| ==> members[l].key != members[i].key
  }

  /** What the document says and its decoded form does not hold there: whatever is
      said under a key that is written again, and what is no string. */
  ghost predicate Overlooked(j: Json, s: string)
    decreases j
  {
    match j
    case JPlain(text) => text == s
    case JString(_) => false
    case JArray(items) => exists i :: 0 <= i < |items| && Overlooked(items[i], s)
    case JObject(members) =>
      exists i ::
        && 0 <= i < |members|
        && if Kept(members, i) then Overlooked(members[i].value, s) else Says(members[i].value, s)
  }

  /** A decoded object has each key that is written, with the last of its values. */
  lemma {:induction false} DecodedKeys(j: Json, n: nat)
    requires j.JObject? && n <= |j.members|
    ensures forall k :: k in DecodeMembers(j, n) <==> exists i :: 0 <= i < n && j.members[i].key == k
  {
    if n > 0 { DecodedKeys(j, n - 1); }
  }

  lemma {:induction false} DecodedMember(j: Json, n: nat, i: nat)
    requires j.JObject? && i < n <= |j.members|
    requires forall l :: i < l < n ==> j.members[l].key != j.members[i].key
    ensures j.members[i].key in DecodeMembers(j, n)
    ensures DecodeMembers(j, n)[j.members[i].key] == Decode(j.members[i].value)
  {
    if i < n - 1 { DecodedMember(j, n - 1, i); }
  }

  /** Some member with the key is the last of them. */
  lemma LastOfKey(members: seq<Member>, i: nat) returns (k: nat)
    requires i < |members|
    ensures i <= k && Kept(members, k) && members[k].key == members[i].key
    decreases |members| - i
  {
    k := i;
    if !Kept(members, i) {
      var l :| i < l < |members| && members[l].key == members[i].key;
      k := LastOfKey(members, l);
    }
  }

  /** What a document says is what its decoded form holds, and what decoding
      overlooks; nothing else. */
  lemma {:induction false} SaidIsHeldOrOverlooked(j: Json, s: string)
    ensures Says(j, s) <==> Holds(Decode(j), s) || Overlooked(j, s)
    decreases j
  {
    match j {
      case JPlain(_) =>
      case JString(_) =>
      case JArray(items) =>
        forall i | 0 <= i < |items|
          ensures Says(items[i], s) <==> Holds(Decode(items[i]), s) || Overlooked(items[i], s)
        {
          SaidIsHeldOrOverlooked(items[i], s);
        }
        ArrayHolds(items, s);
      case JObject(members) =>
        forall i | 0 <= i < |members|
          ensures Says(members[i].value, s) <==> Holds(Decode(members[i].value), s) || Overlooked(members[i].value, s)
        {
          SaidIsHeldOrOverlooked(members[i].value, s);
        }
        ObjectHolds(j, s);
    }
  }

  lemma ArrayHolds(items: seq<Json>, s: string)
    ensures Holds(Decode(JArray(items)), s) <==> exists i :: 0 <= i < |items| && Holds(Decode(items[i]), s)
  {
    var decoded := Decode(JArray(items)).items;
    assert forall i :: 0 <= i < |items| ==> decoded[i] == Decode(items[i]);
    if i :| 0 <= i < |items| && Holds(Decode(items[i]), s) { assert Holds(decoded[i], s); }
  }

  lemma ObjectHolds(j: Json, s: string)
    requires j.JObject?
    ensures Holds(Decode(j), s) <==>
              exists i :: 0 <= i < |j.members| && (j.members[i].key == s || KeptHolds(j.members, i, s))
  {
    var members, decoded := j.members, DecodeMembers(j, |j.members|);
    DecodedKeys(j, |members|);
    if k :| k in decoded && (k == s || Holds(decoded[k], s)) {
      var i :| 0 <= i < |members| && members[i].key == k;
      var last := LastOfKey(members, i);
      DecodedMember(j, |members|, last);
      assert members[last].key == s || KeptHolds(members, last, s);
    }
    if i :| 0 <= i < |members| && (members[i].key == s || KeptHolds(members, i, s)) {
      var last := LastOfKey(members, i);
      DecodedMember(j, |members|, last);
    }
  }

  ghost predicate KeptHolds(members: seq<Member>, i: nat, s: string) {
    Kept(members, i) && Holds(Decode(members[i].value), s)
  }

  ghost predicate Mentions(dialled: seq<string>, d: Decoded) {
    exists s :: Holds(d, s) && Names(dialled, s)
  }

  /** The walk finds a string exactly when the decoded document holds one that names
      an address, and what it reports is such a string; an object's members come in
      whatever order the map gives them. */
  method Walk(dialled: seq<string>, d: Decoded) returns (offending: Option<string>)
    ensures offending.Some? <==> Mentions(dialled, d)
    ensures offending.Some? ==> Holds(d, offending.value) && Names(dialled, offending.value)
    decreases d, 1
  {
    match d {
      case DString(text) =>
        var address := Named(dialled, text);
        if address.Some? {
          assert Holds(d, text);
          return Some(text);
        }
        return None;
      case DArray(items) => offending := WalkItems(dialled, d);
        assert offending.Some? ==> Holds(d, offending.value);
        ItemsHold(dialled, items);
      case DObject(members) => offending := WalkMembers(dialled, d);
        assert offending.Some? ==> Holds(d, offending.value);
        MembersHold(dialled, members);
      case DPlain => return None;
    }
  }

  lemma ItemsHold(dialled: seq<string>, items: seq<Decoded>)
    ensures Mentions(dialled, DArray(items)) <==> exists i :: 0 <= i < |items| && Mentions(dialled, items[i])
  {
  }

  lemma MembersHold(dialled: seq<string>, members: map<string, Decoded>)
    ensures Mentions(dialled, DObject(members)) <==>
            exists k :: k in members && (Names(dialled, k) || Mentions(dialled, members[k]))
  {
  }

  method WalkItems(dialled: seq<string>, d: Decoded) returns (offending: Option<string>)
    requires d.DArray?
    ensures offending.Some? <==> exists i :: 0 <= i < |d.items| && Mentions(dialled, d.items[i])
    ensures offending.Some? ==> Names(dialled, offending.value) && Holds(d, offending.value)
    decreases d, 0
  {
    for i := 0 to |d.items|
      invariant forall k :: 0 <= k < i ==> !Mentions(dialled, d.items[k])
    {
      offending := Walk(dialled, d.items[i]);
      if offending.Some? {
        return;
      }
    }
    offending := None;
  }

  method WalkMembers(dialled: seq<string>, d: Decoded) returns (offending: Option<string>)
    requires d.DObject?
    ensures offending.Some? <==>
            exists k :: k in d.members && (Names(dialled, k) || Mentions(dialled, d.members[k]))
    ensures offending.Some? ==> Names(dialled, offending.value) && Holds(d, offending.value)
    decreases d, 0
  {
    var rest := d.members.Keys;
    while rest != {}
      invariant rest <= d.members.Keys
      invariant forall k :: k in d.members && k !in rest ==> !Names(dialled, k) && !Mentions(dialled, d.members[k])
    {
      var key :| key in rest;
      var address := Named(dialled, key);
      if address.Some? {
        return Some(key);
      }
      offending := Walk(dialled, d.members[key]);
      if offending.Some? {
        return;
      }
      rest := rest - {key};
    }
    offending := None;
  }

  // --- an error result ---

  const REPLACEMENT := "this solution could not complete the call"

  /** One line of text content, and the annotations and metadata published beside it. */
  datatype Line = Line(text: string, annotations: Json, meta: Json)

  /** What a marshaller wrote, and whether it decodes: a number too large to hold
      does not. */
  datatype Rendering = Rendering(tree: Json, decodes: bool)

  /** Structured content once its marshaller has run. */
  datatype Document = NoDocument | Unreadable | Rendered(rendering: Rendering)

  /** An error result as it reads once every marshaller has run; lines is None when
      some content is not text. */
  datatype Reading = Reading(lines: Option<seq<Line>>, document: Document, meta: Json)

  const NOTHING := JObject([])

  ghost predicate CleanLines(dialled: seq<string>, lines: seq<Line>) {
    forall i :: 0 <= i < |lines| ==> !Names(dialled, lines[i].text)
  }

  ghost predicate CleanDocument(dialled: seq<string>, d: Document) {
    match d
    case NoDocument => true
    case Unreadable => false
    case Rendered(r) => r.decodes && !Mentions(dialled, Decode(r.tree))
  }

  /** All of it can be read, and nothing in it that is searched names an address. */
  ghost predicate Clean(dialled: seq<string>, r: Reading) {
    r.lines.Some? && CleanLines(dialled, r.lines.value) && CleanDocument(dialled, r.document)
  }

  const REPLACED := Reading(Some([Line(REPLACEMENT, NOTHING, NOTHING)]), NoDocument, NOTHING)

  ghost function Scrubbed(dialled: seq<string>, r: Reading): Reading {
    if Clean(dialled, r) then r else REPLACED
  }

  /** Some address that was dialled stands in the text, letter for letter. */
  ghost predicate Shows(dialled: seq<string>, text: string) {
    exists k, i, j :: 0 <= k < |dialled| && 0 <= i < j <= |text| && text[i..j] == dialled[k]
  }

  lemma NamesIff(dialled: seq<string>, text: string)
    ensures Names(dialled, text) <==> Shows(dialled, text)
  {
    if address :| address in dialled && address != "" && Contains(text, address) {
      var i :| HasAt(text, address, i);
      assert text[i..i + |address|] == address;
    }
    if k, i, j :| 0 <= k < |dialled| && 0 <= i < j <= |text| && text[i..j] == dialled[k] {
      assert dialled[k] in dialled && HasAt(text, dialled[k], i);
    }
  }

  /** What is published of an error result is what it reads as exactly when all its
      content is text and none of it shows an address that was dialled, and its
      document, if it has one, could be written and read back and shows none in any
      string or key of it; otherwise one fixed line, and nothing else of it. */
  lemma ScrubbedIs(dialled: seq<string>, r: Reading)
    ensures var clear :=
              && r.lines.Some?
              && (forall i :: 0 <= i < |r.lines.value| ==> !Shows(dialled, r.lines.value[i].text))
              && !r.document.Unreadable?
              && (r.document.Rendered? ==>
                    && r.document.rendering.decodes
                    && forall s :: Holds(Decode(r.document.rendering.tree), s) ==> !Shows(dialled, s));
            && (clear <==> Clean(dialled, r))
            && var line := Line("this solution could not complete the call", JObject([]), JObject([]));
               Scrubbed(dialled, r) == if clear then r else Reading(Some([line]), NoDocument, JObject([]))
  {
    forall s ensures Names(dialled, s) <==> Shows(dialled, s) { NamesIff(dialled, s); }
  }

  // --- what a published result says ---

  ghost predicate LineSays(l: Line, s: string) {
    l.text == s || Says(l.annotations, s) || Says(l.meta, s)
  }

  ghost predicate DocumentSays(d: Document, s: string) {
    d.Rendered? && Says(d.rendering.tree, s)
  }

  /** Everything a client is sent of a result: its texts with what stands beside
      them, its document as it is written, and its own metadata. */
  ghost predicate Sends(r: Reading, s: string) {
    || (r.lines.Some? && exists i :: 0 <= i < |r.lines.value| && LineSays(r.lines.value[i], s))
    || DocumentSays(r.document, s)
    || Says(r.meta, s)
  }

  ghost predicate Discloses(dialled: seq<string>, r: Reading) {
    exists s :: Sends(r, s) && Names(dialled, s)
  }

  /** What is sent and was never looked at: annotations, metadata, and whatever
      decoding the document loses. */
  ghost predicate Unsearched(r: Reading, s: string) {
    || (r.lines.Some? && exists i ::
          0 <= i < |r.lines.value| && (Says(r.lines.value[i].annotations, s) || Says(r.lines.value[i].meta, s)))
    || (r.document.Rendered? && Overlooked(r.document.rendering.tree, s))
    || Says(r.meta, s)
  }

  lemma CleanSendsOnlyUnsearched(dialled: seq<string>, r: Reading, s: string)
    requires Clean(dialled, r) && Names(dialled, s)
    ensures Sends(r, s) <==> Unsearched(r, s)
  {
    if r.document.Rendered? {
      SaidIsHeldOrOverlooked(r.document.rendering.tree, s);
    }
    if i :| 0 <= i < |r.lines.value| && LineSays(r.lines.value[i], s) {
      assert r.lines.value[i].text != s;
    }
    if i :| 0 <= i < |r.lines.value| && (Says(r.lines.value[i].annotations, s) || Says(r.lines.value[i].meta, s)) {
      assert LineSays(r.lines.value[i], s);
    }
  }

  lemma ReplacedSaysItsText(s: string)
    ensures Sends(REPLACED, s) <==> s == REPLACEMENT
  {
    assert REPLACED.lines.value[0].text == REPLACEMENT;
    if s == REPLACEMENT { assert LineSays(REPLACED.lines.value[0], s); }
  }

  /** What is published names an address in two cases only: the result was cleared
      and something that is not searched does, or it was replaced and the
      replacement itself does. */
  lemma PublishedDisclosesIff(dialled: seq<string>, r: Reading)
    ensures Discloses(dialled, Scrubbed(dialled, r)) <==>
              if Clean(dialled, r) then exists s :: Unsearched(r, s) && Names(dialled, s)
              else Names(dialled, REPLACEMENT)
  {
    if Clean(dialled, r) {
      forall s | Names(dialled, s) ensures Sends(r, s) <==> Unsearched(r, s) {
        CleanSendsOnlyUnsearched(dialled, r, s);
      }
    } else {
      ReplacedSaysItsText(REPLACEMENT);
      if s :| Sends(REPLACED, s) && Names(dialled, s) { ReplacedSaysItsText(s); }
    }
  }

  lemma SelfNamed(address: string)
    requires address != ""
    ensures Names([address], address)
  {
    assert HasAt(address, address, 0) && address in [address];
  }

  /** A result whose own metadata names a dialled address is published with it. */
  lemma MetadataIsPublished(address: string, text: string, meta: Json)
    requires address != "" && !Names([address], text) && Says(meta, address)
    ensures var r := Reading(Some([Line(text, NOTHING, NOTHING)]), NoDocument, meta);
            Scrubbed([address], r) == r && Discloses([address], r)
  {
    SelfNamed(address);
    var r := Reading(Some([Line(text, NOTHING, NOTHING)]), NoDocument, meta);
    assert Sends(r, address);
  }

  /** And so is a document that writes a key twice, the address first. */
  lemma RepeatedKeyIsPublished(address: string, key: string, other: string)
    requires address != "" && !Names([address], key) && !Names([address], other)
    ensures var doc := JObject([Member(key, JString(address)), Member(key, JString(other))]);
            var r := Reading(Some([]), Rendered(Rendering(doc, true)), NOTHING);
            Scrubbed([address], r) == r && Discloses([address], r)
  {
    var doc := JObject([Member(key, JString(address)), Member(key, JString(other))]);
    var r := Reading(Some([]), Rendered(Rendering(doc, true)), NOTHING);
    SelfNamed(address);
    assert Says(doc.members[0].value, address);
    assert Sends(r, address);
    assert DecodeMembers(doc, 0) == map[];
    assert DecodeMembers(doc, 1) == map[key := DString(address)];
    assert DecodeMembers(doc, 2) == map[key := DString(other)];
    MembersHold([address], map[key := DString(other)]);
  }

  // --- results in the heap ---

  /** Annotations or metadata: kept by reference, here and in what is published. */
  class Extra {
    var tree: Json

    constructor (tree: Json)
      ensures this.tree == tree
    {
      this.tree := tree;
    }
  }

  function Carried(extra: Extra?): Json
    reads extra
  {
    if extra == null then NOTHING else extra.tree
  }

  class TextContent {
    var text: string
    const annotations: Extra?
    const meta: Extra?

    constructor (text: string, annotations: Extra?, meta: Extra?)
      ensures this.text == text && this.annotations == annotations && this.meta == meta
    {
      this.text, this.annotations, this.meta := text, annotations, meta;
    }

    function Now(): Line
      reads this, annotations, meta
    {
      Line(text, Carried(annotations), Carried(meta))
    }
  }

  datatype Content = Text(content: TextContent) | Other(kind: string)

  /** A structured value. Its marshaller is its author's code: it may rewrite text
      content and metadata it holds on to, before it answers or fails. */
  datatype Structured =
    | Absent
    | Value(texts: seq<(TextContent, string)>, marks: seq<(Extra, Json)>, answer: Option<Rendering>)
    | Raw(rendering: Rendering)

  class CallToolResult {
    const isError: bool
    const content: seq<Content>
    const structured: Structured
    const meta: Extra?

    constructor (isError: bool, content: seq<Content>, structured: Structured, meta: Extra?)
      ensures this.isError == isError && this.content == content && this.structured == structured && this.meta == meta
    {
      this.isError, this.content, this.structured, this.meta := isError, content, structured, meta;
    }
  }

  function Texts(content: seq<Content>): set<TextContent> {
    set i | 0 <= i < |content| && content[i].Text? :: content[i].content
  }

  function Extras(content: seq<Content>): set<Extra> {
    (set i | 0 <= i < |content| && content[i].Text? && content[i].content.annotations != null ::
       content[i].content.annotations) +
    (set i | 0 <= i < |content| && content[i].Text? && content[i].content.meta != null :: content[i].content.meta)
  }

  function LinesOf(content: seq<Content>): Option<seq<Line>>
    reads Texts(content), Extras(content)
  {
    if exists i :: 0 <= i < |content| && content[i].Other? then None
    else
      Some(seq(|content|, i requires 0 <= i < |content| && content[i].Text? reads Texts(content), Extras(content) =>
                 content[i].content.Now()))
  }

  /** A result's content as it reads now, beside what its structured content
      answers. */
  function ReadAs(content: seq<Content>, structured: Structured, meta: Extra?): Reading
    reads Texts(content), Extras(content), meta
  {
    Reading(LinesOf(content), Answered(structured), Carried(meta))
  }

  /** A result as it reads now. */
  function ReadNow(call: CallToolResult): Reading
    reads Texts(call.content), Extras(call.content), call.meta
  {
    ReadAs(call.content, call.structured, call.meta)
  }

  ghost function Held(s: Structured): set<object> {
    if s.Value? then (set i | 0 <= i < |s.texts| :: s.texts[i].0) + (set i | 0 <= i < |s.marks| :: s.marks[i].0) else {}
  }

  function Answered(s: Structured): Document {
    match s
    case Absent => NoDocument
    case Value(_, _, answer) => if answer.Some? then Rendered(answer.value) else Unreadable
    case Raw(rendering) => Rendered(rendering)
  }

  /** What a text reads once these are written, the last of them last. */
  ghost function Rewritten(texts: seq<(TextContent, string)>, c: TextContent): string
    reads c
  {
    if texts == [] then c.text
    else if texts[|texts| - 1].0 == c then texts[|texts| - 1].1
    else Rewritten(texts[..|texts| - 1], c)
  }

  ghost function Marked(marks: seq<(Extra, Json)>, e: Extra): Json
    reads e
  {
    if marks == [] then e.tree
    else if marks[|marks| - 1].0 == e then marks[|marks| - 1].1
    else Marked(marks[..|marks| - 1], e)
  }

  ghost function MarkedIfAny(marks: seq<(Extra, Json)>, e: Extra?): Json
    reads e
  {
    if e == null then NOTHING else Marked(marks, e)
  }

  ghost function LineOnce(texts: seq<(TextContent, string)>, marks: seq<(Extra, Json)>, c: TextContent): Line
    reads c, c.annotations, c.meta
  {
    Line(Rewritten(texts, c), MarkedIfAny(marks, c.annotations), MarkedIfAny(marks, c.meta))
  }

  /** A result's content as it will read once its marshaller has run. */
  ghost function ReadOnce(content: seq<Content>, s: Structured, meta: Extra?): Reading
    reads Texts(content), Extras(content), meta
  {
    var (texts, marks) := WritesOf(s);
    Reading(LinesOnce(content, texts, marks), Answered(s), MarkedIfAny(marks, meta))
  }

  /** What a structured value's marshaller writes. */
  ghost function WritesOf(s: Structured): (seq<(TextContent, string)>, seq<(Extra, Json)>) {
    if s.Value? then (s.texts, s.marks) else ([], [])
  }

  ghost function LinesOnce(
      content: seq<Content>, texts: seq<(TextContent, string)>, marks: seq<(Extra, Json)>): Option<seq<Line>>
    reads Texts(content), Extras(content)
  {
    if exists i :: 0 <= i < |content| && content[i].Other? then None
    else
      Some(seq(|content|, i requires 0 <= i < |content| && content[i].Text? reads Texts(content), Extras(content) =>
                 LineOnce(texts, marks, content[i].content)))
  }

  /** Writes through whatever is held on to. */
  method Rewrite(texts: seq<(TextContent, string)>, ghost some: set<TextContent>)
    modifies set i | 0 <= i < |texts| :: texts[i].0
    ensures forall c :: c in some ==> c.text == old(Rewritten(texts, c))
  {
    for i := 0 to |texts|
      invariant forall c :: c in some ==> c.text == old(Rewritten(texts[..i], c))
    {
      assert texts[..i + 1][..i] == texts[..i];
      var content := texts[i].0;
      content.text := texts[i].1;
    }
    assert texts[..|texts|] == texts;
  }

  method Mark(marks: seq<(Extra, Json)>, ghost some: set<Extra>)
    modifies set i | 0 <= i < |marks| :: marks[i].0
    ensures forall e :: e in some ==> e.tree == old(Marked(marks, e))
  {
    for i := 0 to |marks|
      invariant forall e :: e in some ==> e.tree == old(Marked(marks[..i], e))
    {
      assert marks[..i + 1][..i] == marks[..i];
      var extra := marks[i].0;
      extra.tree := marks[i].1;
    }
    assert marks[..|marks|] == marks;
  }

  lemma LinesRead(content: seq<Content>, lines: Option<seq<Line>>)
    requires lines == None <==> exists i :: 0 <= i < |content| && content[i].Other?
    requires lines.Some? ==> |lines.value| == |content|
    requires lines.Some? ==>
               forall i :: 0 <= i < |content| ==> content[i].Text? && content[i].content.Now() == lines.value[i]
    ensures LinesOf(content) == lines
  {
    if lines.Some? { assert LinesOf(content).value == lines.value; }
  }

  /** Run a structured value's marshaller, once. */
  method Marshal(s: Structured, ghost content: seq<Content>, ghost meta: Extra?) returns (document: Document)
    modifies Held(s)
    ensures document == Answered(s) && ReadAs(content, s, meta) == old(ReadOnce(content, s, meta))
  {
    ghost var (texts, marks) := WritesOf(s);
    ghost var lines := LinesOnce(content, texts, marks);
    if s.Value? {
      Rewrite(s.texts, Texts(content));
      Mark(s.marks, Extras(content) + (if meta == null then {} else {meta}));
    }
    document := Answered(s);
    if lines.Some? {
      forall i | 0 <= i < |content| ensures content[i].content.Now() == lines.value[i] {
        ghost var c := content[i].content;
        assert c in Texts(content);
        assert c.annotations != null ==> c.annotations in Extras(content);
        assert c.meta != null ==> c.meta in Extras(content);
      }
    }
    LinesRead(content, lines);
  }

  function Wrapped(copies: seq<TextContent>): (content: seq<Content>)
    ensures |content| == |copies| && forall i :: 0 <= i < |copies| ==> content[i] == Text(copies[i])
  {
    seq(|copies|, i requires 0 <= i < |copies| => Text(copies[i]))
  }

  /** Copies of all the content, as they are published. */
  ghost predicate CopiesOf(copies: seq<TextContent>, content: seq<Content>)
    reads copies, Texts(content)
  {
    && |copies| == |content|
    && forall i :: 0 <= i < |content| ==>
         && content[i].Text? && copies[i].text == content[i].content.text
         && copies[i].annotations == content[i].content.annotations && copies[i].meta == content[i].content.meta
  }

  lemma CopiesReadAlike(copies: seq<TextContent>, content: seq<Content>)
    requires CopiesOf(copies, content)
    ensures LinesOf(Wrapped(copies)) == LinesOf(content) && Extras(Wrapped(copies)) == Extras(content)
  {
    var wrapped := Wrapped(copies);
    assert forall i :: 0 <= i < |copies| ==> wrapped[i].content.Now() == content[i].content.Now();
    assert forall i :: 0 <= i < |copies| ==> wrapped[i].content.annotations == content[i].content.annotations;
    assert forall i :: 0 <= i < |copies| ==> wrapped[i].content.meta == content[i].content.meta;
    assert LinesOf(wrapped).value == LinesOf(content).value;
  }

  lemma CopiesNameAlike(dialled: seq<string>, copies: seq<TextContent>, content: seq<Content>)
    requires CopiesOf(copies, content)
    ensures LinesOf(content).Some?
    ensures CleanLines(dialled, LinesOf(content).value) <==>
            !exists i :: 0 <= i < |copies| && Names(dialled, copies[i].text)
  {
    var lines := LinesOf(content).value;
    assert forall i :: 0 <= i < |lines| ==> lines[i].text == copies[i].text;
  }

  /** The texts, each copied into content of this runtime's own; annotations and
      metadata go along by reference. */
  method Snapshot(content: seq<Content>) returns (copies: Option<seq<TextContent>>)
    ensures copies.Some? <==> LinesOf(content).Some?
    ensures copies.Some? ==> CopiesOf(copies.value, content) && forall c :: c in copies.value ==> fresh(c)
  {
    var taken: seq<TextContent> := [];
    for i := 0 to |content|
      invariant |taken| == i && forall k :: 0 <= k < i ==> content[k].Text?
      invariant forall k :: 0 <= k < i ==> fresh(taken[k]) && taken[k].text == content[k].content.text
      invariant forall k :: 0 <= k < i ==>
                  taken[k].annotations == content[k].content.annotations && taken[k].meta == content[k].content.meta
    {
      if content[i].Other? {
        return None;
      }
      var text := content[i].content;
      var copy := new TextContent(text.text, text.annotations, text.meta);
      taken := taken + [copy];
    }
    return Some(taken);
  }

  method TextNames(dialled: seq<string>, texts: seq<TextContent>) returns (found: bool)
    ensures found <==> exists i :: 0 <= i < |texts| && Names(dialled, texts[i].text)
  {
    for i := 0 to |texts|
      invariant forall k :: 0 <= k < i ==> !Names(dialled, texts[k].text)
    {
      var address := Named(dialled, texts[i].text);
      if address.Some? {
        return true;
      }
    }
    return false;
  }

  method DocumentNames(dialled: seq<string>, document: Document) returns (found: bool)
    ensures found <==> !CleanDocument(dialled, document)
  {
    match document {
      case NoDocument => found := false;
      case Unreadable => found := true;
      case Rendered(rendering) =>
        if !rendering.decodes {
          return true;
        }
        var offending := Walk(dialled, Decode(rendering.tree));
        found := offending.Some?;
    }
  }

  method Replaced() returns (out: CallToolResult)
    ensures fresh(out) && out.isError && fresh(Texts(out.content)) && !out.structured.Value?
    ensures out.meta == null && Extras(out.content) == {} && ReadNow(out) == REPLACED
  {
    var text := new TextContent(REPLACEMENT, null, null);
    out := new CallToolResult(true, [Text(text)], Absent, null);
    assert out.content[0].content == text && LinesOf(out.content).value == [text.Now()];
  }

  method Publish(copies: seq<TextContent>, document: Document, meta: Extra?, ghost content: seq<Content>)
    returns (out: CallToolResult)
    requires !document.Unreadable? && CopiesOf(copies, content)
    ensures fresh(out) && out.isError && !out.structured.Value? && out.meta == meta
    ensures (forall t :: t in Texts(out.content) ==> t in copies) && Extras(out.content) == Extras(content)
    ensures ReadNow(out) == Reading(LinesOf(content), document, Carried(meta))
  {
    var structured := if document.Rendered? then Raw(document.rendering) else Absent;
    out := new CallToolResult(true, Wrapped(copies), structured, meta);
    CopiesReadAlike(copies, content);
    assert forall i :: 0 <= i < |copies| ==> out.content[i] == Text(copies[i]);
  }

  /** Of what its author holds, a cleared result keeps the annotations and the
      metadata; a replaced one keeps nothing. */
  ghost predicate Keeps(out: CallToolResult, cleared: bool, extras: set<Extra>, meta: Extra?) {
    if cleared then out.meta == meta && Extras(out.content) == extras else out.meta == null && Extras(out.content) == {}
  }

  method Clears(copies: seq<TextContent>, document: Document, dialled: seq<string>, ghost content: seq<Content>)
    returns (cleared: bool)
    requires CopiesOf(copies, content)
    ensures LinesOf(content).Some?
    ensures cleared <==> CleanLines(dialled, LinesOf(content).value) && CleanDocument(dialled, document)
  {
    label Unread:
    var textNames := TextNames(dialled, copies);
    var documentNames := DocumentNames(dialled, document);
    cleared := !textNames && !documentNames;
    assert unchanged@Unread(copies) && unchanged@Unread(Texts(content));
    CopiesNameAlike(dialled, copies, content);
  }

  /** Content and a document that has been written: inspected, and published or
      replaced. */
  method Inspect(content: seq<Content>, document: Document, meta: Extra?, dialled: seq<string>)
    returns (out: CallToolResult)
    requires !document.Unreadable?
    ensures fresh(out) && fresh(Texts(out.content)) && out.isError && !out.structured.Value?
    ensures var reading := Reading(LinesOf(content), document, Carried(meta));
            && ReadNow(out) == Scrubbed(dialled, reading)
            && Keeps(out, Clean(dialled, reading), Extras(content), meta)
  {
    ghost var reading := Reading(LinesOf(content), document, Carried(meta));
    label Unread:
    var copies := Snapshot(content);
    if copies == None {
      out := Replaced();
    } else {
      var cleared := Clears(copies.value, document, dialled, content);
      if cleared {
        out := Publish(copies.value, document, meta, content);
      } else {
        out := Replaced();
      }
    }
    assert unchanged@Unread(Texts(content)) && unchanged@Unread(Extras(content));
    assert reading == Reading(LinesOf(content), document, Carried(meta));
  }

  /** An error result's content and structured value, as they read once the
      marshaller has run. */
  method ScrubError(content: seq<Content>, structured: Structured, meta: Extra?, dialled: seq<string>)
    returns (out: CallToolResult)
    modifies Held(structured)
    ensures fresh(out) && fresh(Texts(out.content)) && out.isError && !out.structured.Value?
    ensures ReadAs(content, structured, meta) == old(ReadOnce(content, structured, meta))
    ensures ReadNow(out) == Scrubbed(dialled, old(ReadOnce(content, structured, meta)))
    ensures Keeps(out, Clean(dialled, old(ReadOnce(content, structured, meta))), Extras(content), meta)
  {
    var document := Marshal(structured, content, meta);
    label Written:
    if document.Unreadable? {
      out := Replaced();
    } else {
      out := Inspect(content, document, meta, dialled);
    }
    assert unchanged@Written(Texts(content)) && unchanged@Written(Extras(content));
  }

  /** What an error result will read as once its marshaller has run. */
  ghost function OnceMarshalled(call: CallToolResult): Reading
    reads Texts(call.content), Extras(call.content), call.meta
  {
    ReadOnce(call.content, call.structured, call.meta)
  }

  /** A result that is no error is returned as it is. An error result is published
      as a new one, its texts copied, and reads as the scrubbed form of what the
      author's reads as once its marshaller has run, whatever that marshaller does to
      the author's own texts and metadata. */
  method WithoutRuntimeAddresses(call: CallToolResult, dialled: seq<string>) returns (out: CallToolResult)
    modifies Held(call.structured)
    ensures !call.isError ==> out == call && unchanged(Held(call.structured))
    ensures call.isError ==> fresh(out) && fresh(Texts(out.content)) && out.isError && !out.structured.Value?
    ensures call.isError ==> ReadNow(call) == old(OnceMarshalled(call))
    ensures call.isError ==> ReadNow(out) == Scrubbed(dialled, old(OnceMarshalled(call)))
    ensures call.isError ==> Keeps(out, Clean(dialled, old(OnceMarshalled(call))), Extras(call.content), call.meta)
  {
    if !call.isError {
      return call;
    }
    out := ScrubError(call.content, call.structured, call.meta, dialled);
  }

  // --- what its author may still write ---

  /** Published, and then written to by its author: whatever texts the author still
      holds, what is published reads as it did when it was published. */
  method PublishThenRewrite(call: CallToolResult, dialled: seq<string>, texts: seq<(TextContent, string)>)
    returns (out: CallToolResult)
    requires call.isError
    modifies Held(call.structured), set i | 0 <= i < |texts| :: texts[i].0
    ensures ReadNow(out) == Scrubbed(dialled, old(OnceMarshalled(call)))
  {
    out := WithoutRuntimeAddresses(call, dialled);
    label Published:
    Rewrite(texts, {});
    assert unchanged@Published(Texts(out.content)) && unchanged@Published(Extras(out.content));
  }

  /** Metadata does: a cleared result's own is read as the author last wrote it. */
  method PublishThenMark(call: CallToolResult, dialled: seq<string>, meta: Extra, tree: Json)
    returns (out: CallToolResult)
    requires call.isError && call.meta == meta
    modifies Held(call.structured), meta
    ensures Clean(dialled, old(OnceMarshalled(call))) ==> ReadNow(out).meta == tree
    ensures !Clean(dialled, old(OnceMarshalled(call))) ==> ReadNow(out) == REPLACED
  {
    out := WithoutRuntimeAddresses(call, dialled);
    meta.tree := tree;
  }
}
