/** The cache key of an ask: what a derived gateway is asking the authority for,
    spelled as the string its request's cache is indexed by.

    A string is a sequence of Unicode scalar values, so every string here is
    valid UTF-8: the JSON encoder's replacement of invalid bytes never applies.

    Each encoder takes the text that follows it, so what it writes is a head in
    front of that text and reading it back is peeling heads off one by one. */
module AskKey {

  /** One slice of authority: empty ids means the whole resource kind. */
  datatype Scope = Scope(kind: string, actions: seq<string>, ids: seq<string>)

  /** What a derived gateway asks for: a child of the viewer's Work Context
      through a binding, narrowed to scopes, or this module's own through one. */
  datatype Ask =
    | ChildAsk(binding: string, scopes: seq<Scope>)
    | OwnAsk(binding: string)

  /** What is fixed for the life of one request: the digest of the Work Context
      it carried, and the viewer's organization. */
  datatype Request = Request(digest: string, organization: string)

  // --- the JSON spelling of a list of scopes ---

  function HexDigit(d: nat): char
    requires d < 16
  {
    "0123456789abcdef"[d]
  }

  /** One character of a string body, as the encoder writes it: the two-character
      escapes, the six-character ones for the other controls and for the three
      characters HTML gives a meaning, and everything else as itself. */
  function Escape(c: char): string {
    if c == '"' then "\\\""
    else if c == '\\' then "\\\\"
    else if c == '\n' then "\\n"
    else if c == '\r' then "\\r"
    else if c == '\t' then "\\t"
    else if c as int == 8 then "\\b"
    else if c as int == 12 then "\\f"
    else if c < ' ' || c == '<' || c == '>' || c == '&' then
      ['\\', 'u', '0', '0', HexDigit(c as int / 16), HexDigit(c as int % 16)]
    else if c == '\U{2028}' then "\\u2028"
    else if c == '\U{2029}' then "\\u2029"
    else [c]
  }

  /** A string's body and its closing quote. */
  function Body(s: string, rest: string): string {
    if s == [] then "\"" + rest else Escape(s[0]) + Body(s[1..], rest)
  }

  function Quoted(s: string, rest: string): string {
    "\"" + Body(s, rest)
  }

  function StringsTail(xs: seq<string>, rest: string): string {
    if xs == [] then "]" + rest else "," + Quoted(xs[0], StringsTail(xs[1..], rest))
  }

  const ACTIONS_NAME: string := ",\"actions\":["
  const IDS_NAME: string := ",\"resourceIds\":["

  /** A list member is written only when the list is not empty. */
  function Member(name: string, xs: seq<string>, rest: string): string {
    if xs == [] then rest else name + Quoted(xs[0], StringsTail(xs[1..], rest))
  }

  const KIND_NAME: string := "{\"resourceKind\":"

  function Object(s: Scope, rest: string): string {
    KIND_NAME + Quoted(s.kind, Member(ACTIONS_NAME, s.actions, Member(IDS_NAME, s.ids, "}" + rest)))
  }

  function ObjectsTail(xs: seq<Scope>, rest: string): string {
    if xs == [] then "]" + rest else "," + Object(xs[0], ObjectsTail(xs[1..], rest))
  }

  function Json(xs: seq<Scope>): string {
    if xs == [] then "[]" else "[" + Object(xs[0], ObjectsTail(xs[1..], ""))
  }

  /** The key the request's cache holds an ask under. */
  function Key(request: Request, ask: Ask): string {
    match ask
    case ChildAsk(binding, scopes) =>
      ("parent\0" + request.digest + "\0" + binding) + "\0" + Json(scopes)
    case OwnAsk(binding) =>
      ("binding\0" + request.organization + "\0") + binding
  }

  // --- peeling a head off ---

  lemma HeadCancels(head: string, u: string, v: string)
    requires head + u == head + v
    ensures u == v
  {
    assert u == (head + u)[|head|..] == (head + v)[|head|..] == v;
  }

  lemma HexDigitsDiffer(d: nat, e: nat)
    requires d < 16 && e < 16 && HexDigit(d) == HexDigit(e)
    ensures d == e
  {
  }

  /** The characters written in six, two digits of them their code. */
  predicate Coded(c: char) {
    |Escape(c)| == 6 && c < '\U{2028}'
  }

  lemma CodedAreDistinct(c: char, d: char)
    requires Coded(c) && Coded(d) && Escape(c)[4] == Escape(d)[4] && Escape(c)[5] == Escape(d)[5]
    ensures c == d
  {
    HexDigitsDiffer(c as int / 16, d as int / 16);
    HexDigitsDiffer(c as int % 16, d as int % 16);
  }

  lemma EscapeIsDistinct(c: char, d: char)
    requires |Escape(c)| == |Escape(d)|
    requires forall i :: 0 <= i < |Escape(c)| ==> Escape(c)[i] == Escape(d)[i]
    ensures c == d
  {
    assert Escape(c)[0] == Escape(d)[0];
    if |Escape(c)| == 2 {
      assert Escape(c)[1] == Escape(d)[1];
    } else if |Escape(c)| == 6 {
      assert Escape(c)[2] == Escape(d)[2] && Escape(c)[4] == Escape(d)[4] && Escape(c)[5] == Escape(d)[5];
      if Coded(c) && Coded(d) { CodedAreDistinct(c, d); }
    }
  }

  /** No character's spelling is a prefix of another's, and none opens with the
      quote that closes a body. */
  lemma EscapeIsPrefixFree(c: char, u: string, d: char, v: string)
    requires Escape(c) + u == Escape(d) + v
    ensures c == d && u == v
  {
    var e, f := Escape(c), Escape(d);
    var whole := e + u;
    assert forall i :: 0 <= i < |e| ==> whole[i] == e[i];
    assert forall i :: 0 <= i < |f| ==> whole[i] == f[i];
    assert e[0] == f[0];
    if |e| > 1 && |f| > 1 { assert e[1] == f[1]; }
    assert |e| == |f|;
    EscapeIsDistinct(c, d);
    HeadCancels(e, u, v);
  }

  lemma {:induction false} BodyCancels(s: string, u: string, t: string, v: string)
    requires Body(s, u) == Body(t, v)
    ensures s == t && u == v
  {
    assert s != [] ==> Body(s, u)[0] == Escape(s[0])[0] != '"';
    assert t != [] ==> Body(t, v)[0] == Escape(t[0])[0] != '"';
    if s == [] {
      HeadCancels("\"", u, v);
    } else {
      EscapeIsPrefixFree(s[0], Body(s[1..], u), t[0], Body(t[1..], v));
      BodyCancels(s[1..], u, t[1..], v);
      assert s == [s[0]] + s[1..] && t == [t[0]] + t[1..];
    }
  }

  lemma QuotedCancels(s: string, u: string, t: string, v: string)
    requires Quoted(s, u) == Quoted(t, v)
    ensures s == t && u == v
  {
    HeadCancels("\"", Body(s, u), Body(t, v));
    BodyCancels(s, u, t, v);
  }

  lemma {:induction false} StringsTailCancels(xs: seq<string>, u: string, ys: seq<string>, v: string)
    requires StringsTail(xs, u) == StringsTail(ys, v)
    ensures xs == ys && u == v
  {
    assert StringsTail(xs, u)[0] == StringsTail(ys, v)[0];
    if xs == [] || ys == [] {
      HeadCancels("]", u, v);
    } else {
      var x, y := StringsTail(xs[1..], u), StringsTail(ys[1..], v);
      HeadCancels(",", Quoted(xs[0], x), Quoted(ys[0], y));
      QuotedCancels(xs[0], x, ys[0], y);
      StringsTailCancels(xs[1..], u, ys[1..], v);
      assert xs == [xs[0]] + xs[1..] && ys == [ys[0]] + ys[1..];
    }
  }

  /** A named list cancels, present or absent, when what follows an absent one
      cannot be mistaken for its name. */
  lemma MemberCancels(name: string, xs: seq<string>, u: string, ys: seq<string>, v: string)
    requires !(name <= u) && !(name <= v)
    requires Member(name, xs, u) == Member(name, ys, v)
    ensures xs == ys && u == v
  {
    if xs != [] && ys != [] {
      var x, y := StringsTail(xs[1..], u), StringsTail(ys[1..], v);
      HeadCancels(name, Quoted(xs[0], x), Quoted(ys[0], y));
      QuotedCancels(xs[0], x, ys[0], y);
      StringsTailCancels(xs[1..], u, ys[1..], v);
      assert xs == [xs[0]] + xs[1..] && ys == [ys[0]] + ys[1..];
    }
  }

  lemma IdsAreNotActions(ids: seq<string>, u: string)
    ensures !(ACTIONS_NAME <= Member(IDS_NAME, ids, "}" + u))
    ensures !(IDS_NAME <= "}" + u)
  {
    var e := Member(IDS_NAME, ids, "}" + u);
    assert if ids == [] then e[0] == '}' else e[2] == 'r';
    assert ("}" + u)[0] == '}';
  }

  lemma ObjectCancels(s: Scope, u: string, t: Scope, v: string)
    requires Object(s, u) == Object(t, v)
    ensures s == t && u == v
  {
    var iu, iv := Member(IDS_NAME, s.ids, "}" + u), Member(IDS_NAME, t.ids, "}" + v);
    var au, av := Member(ACTIONS_NAME, s.actions, iu), Member(ACTIONS_NAME, t.actions, iv);
    HeadCancels(KIND_NAME, Quoted(s.kind, au), Quoted(t.kind, av));
    QuotedCancels(s.kind, au, t.kind, av);
    IdsAreNotActions(s.ids, u);
    IdsAreNotActions(t.ids, v);
    MemberCancels(ACTIONS_NAME, s.actions, iu, t.actions, iv);
    MemberCancels(IDS_NAME, s.ids, "}" + u, t.ids, "}" + v);
    HeadCancels("}", u, v);
  }

  lemma {:induction false} ObjectsTailCancels(xs: seq<Scope>, u: string, ys: seq<Scope>, v: string)
    requires ObjectsTail(xs, u) == ObjectsTail(ys, v)
    ensures xs == ys && u == v
  {
    assert ObjectsTail(xs, u)[0] == ObjectsTail(ys, v)[0];
    if xs == [] || ys == [] {
      HeadCancels("]", u, v);
    } else {
      var x, y := ObjectsTail(xs[1..], u), ObjectsTail(ys[1..], v);
      HeadCancels(",", Object(xs[0], x), Object(ys[0], y));
      ObjectCancels(xs[0], x, ys[0], y);
      ObjectsTailCancels(xs[1..], u, ys[1..], v);
      assert xs == [xs[0]] + xs[1..] && ys == [ys[0]] + ys[1..];
    }
  }

  /** The scope encoding is injective. */
  lemma JsonInjective(xs: seq<Scope>, ys: seq<Scope>)
    requires Json(xs) == Json(ys)
    ensures xs == ys
  {
    assert Json(xs)[1] == Json(ys)[1];
    if xs != [] && ys != [] {
      var x, y := ObjectsTail(xs[1..], ""), ObjectsTail(ys[1..], "");
      HeadCancels("[", Object(xs[0], x), Object(ys[0], y));
      ObjectCancels(xs[0], x, ys[0], y);
      ObjectsTailCancels(xs[1..], "", ys[1..], "");
      assert xs == [xs[0]] + xs[1..] && ys == [ys[0]] + ys[1..];
    }
  }

  // --- an encoded scope list holds no raw NUL ---

  lemma EscapeHasNoNul(c: char)
    ensures forall i :: 0 <= i < |Escape(c)| ==> Escape(c)[i] != '\0'
  {
  }

  lemma {:induction false} BodyHasNoNul(s: string, rest: string)
    requires '\0' !in rest
    ensures '\0' !in Body(s, rest)
  {
    if s != [] {
      BodyHasNoNul(s[1..], rest);
      EscapeHasNoNul(s[0]);
    }
  }

  lemma {:induction false} StringsTailHasNoNul(xs: seq<string>, rest: string)
    requires '\0' !in rest
    ensures '\0' !in StringsTail(xs, rest)
  {
    if xs != [] {
      StringsTailHasNoNul(xs[1..], rest);
      BodyHasNoNul(xs[0], StringsTail(xs[1..], rest));
    }
  }

  lemma MemberHasNoNul(name: string, xs: seq<string>, rest: string)
    requires '\0' !in name && '\0' !in rest
    ensures '\0' !in Member(name, xs, rest)
  {
    if xs != [] {
      StringsTailHasNoNul(xs[1..], rest);
      BodyHasNoNul(xs[0], StringsTail(xs[1..], rest));
    }
  }

  lemma ObjectHasNoNul(s: Scope, rest: string)
    requires '\0' !in rest
    ensures '\0' !in Object(s, rest)
  {
    MemberHasNoNul(IDS_NAME, s.ids, "}" + rest);
    MemberHasNoNul(ACTIONS_NAME, s.actions, Member(IDS_NAME, s.ids, "}" + rest));
    BodyHasNoNul(s.kind, Member(ACTIONS_NAME, s.actions, Member(IDS_NAME, s.ids, "}" + rest)));
  }

  lemma {:induction false} ObjectsTailHasNoNul(xs: seq<Scope>, rest: string)
    requires '\0' !in rest
    ensures '\0' !in ObjectsTail(xs, rest)
  {
    if xs != [] {
      ObjectsTailHasNoNul(xs[1..], rest);
      ObjectHasNoNul(xs[0], ObjectsTail(xs[1..], rest));
    }
  }

  lemma JsonHasNoNul(xs: seq<Scope>)
    ensures '\0' !in Json(xs)
  {
    if xs != [] {
      ObjectsTailHasNoNul(xs[1..], "");
      ObjectHasNoNul(xs[0], ObjectsTail(xs[1..], ""));
    }
  }

  // --- the key ---

  /** The last raw NUL separates: a binding may itself hold one. */
  lemma LastNulSeparates(a: string, u: string, b: string, v: string)
    requires '\0' !in u && '\0' !in v
    requires a + "\0" + u == b + "\0" + v
    ensures a == b && u == v
  {
    var whole := a + "\0" + u;
    assert whole[|a|] == '\0' && whole[|b|] == '\0';
    assert forall i :: |a| < i < |whole| ==> whole[i] == u[i - |a| - 1];
    assert forall i :: |b| < i < |whole| ==> whole[i] == v[i - |b| - 1];
    assert |a| == |b|;
    assert a == whole[..|a|] && b == whole[..|a|];
    assert u == whole[|a| + 1..] && v == whole[|a| + 1..];
  }

  /** Within one request, one key is one ask: same kind, same binding, same
      scopes, whatever characters a binding, an organization or a scope holds. */
  lemma KeyInjective(request: Request, a: Ask, b: Ask)
    requires Key(request, a) == Key(request, b)
    ensures a == b
  {
    assert Key(request, a)[0] == Key(request, b)[0];
    if a.ChildAsk? {
      var head := "parent\0" + request.digest + "\0";
      JsonHasNoNul(a.scopes);
      JsonHasNoNul(b.scopes);
      LastNulSeparates(head + a.binding, Json(a.scopes), head + b.binding, Json(b.scopes));
      HeadCancels(head, a.binding, b.binding);
      JsonInjective(a.scopes, b.scopes);
    } else {
      HeadCancels("binding\0" + request.organization + "\0", a.binding, b.binding);
    }
  }

  /** Where the first field holds no NUL, the first raw one ends it. */
  lemma FirstNulSeparates(a: string, u: string, b: string, v: string)
    requires '\0' !in a && '\0' !in b
    requires a + "\0" + u == b + "\0" + v
    ensures a == b && u == v
  {
    var whole := a + "\0" + u;
    assert whole[|a|] == '\0' && whole[|b|] == '\0';
    assert forall i :: 0 <= i < |a| ==> whole[i] == a[i];
    assert forall i :: 0 <= i < |b| ==> whole[i] == b[i];
    assert |a| == |b|;
    assert a == whole[..|a|] && b == whole[..|a|];
    assert u == whole[|a| + 1..] && v == whole[|a| + 1..];
  }

  lemma ChildKeyIs(r: Request, binding: string, scopes: seq<Scope>)
    ensures Key(r, ChildAsk(binding, scopes)) == "parent\0" + (r.digest + "\0" + (binding + "\0" + Json(scopes)))
  {
    Regrouped("parent\0", r.digest, "\0", binding, Json(scopes));
  }

  lemma Regrouped(a: string, b: string, c: string, d: string, e: string)
    ensures (a + b + c + d) + c + e == a + (b + c + (d + c + e))
  {
  }

  lemma OwnKeyIs(r: Request, binding: string)
    ensures Key(r, OwnAsk(binding)) == "binding\0" + (r.organization + "\0" + binding)
  {
  }

  lemma ChildKeyTells(r: Request, x: string, q: Request, y: string)
    requires '\0' !in r.digest && '\0' !in q.digest
    requires "parent\0" + (r.digest + "\0" + x) == "parent\0" + (q.digest + "\0" + y)
    ensures r.digest == q.digest && x == y
  {
    HeadCancels("parent\0", r.digest + "\0" + x, q.digest + "\0" + y);
    FirstNulSeparates(r.digest, x, q.digest, y);
  }

  lemma OwnKeyTells(r: Request, x: string, q: Request, y: string)
    requires '\0' !in r.organization && '\0' !in q.organization
    requires "binding\0" + (r.organization + "\0" + x) == "binding\0" + (q.organization + "\0" + y)
    ensures r.organization == q.organization && x == y
  {
    HeadCancels("binding\0", r.organization + "\0" + x, q.organization + "\0" + y);
    FirstNulSeparates(r.organization, x, q.organization, y);
  }

  lemma ScopesAfterBinding(binding: string, scopes: seq<Scope>, other: string, others: seq<Scope>)
    requires binding + "\0" + Json(scopes) == other + "\0" + Json(others)
    ensures binding == other && scopes == others
  {
    JsonHasNoNul(scopes);
    JsonHasNoNul(others);
    LastNulSeparates(binding, Json(scopes), other, Json(others));
    JsonInjective(scopes, others);
  }

  /** And one key is of one request: of one parent context where it is a child's, of
      one organization where it is this module's own. A digest is hexadecimal; an
      organization is taken to hold no NUL. */
  lemma KeyTellsTheRequest(r: Request, a: Ask, q: Request, b: Ask)
    requires '\0' !in r.digest && '\0' !in q.digest && '\0' !in r.organization && '\0' !in q.organization
    requires Key(r, a) == Key(q, b)
    ensures a == b && if a.ChildAsk? then r.digest == q.digest else r.organization == q.organization
  {
    assert Key(r, a)[0] == Key(q, b)[0];
    match a {
      case ChildAsk(binding, scopes) =>
        ChildKeyIs(r, binding, scopes);
        ChildKeyIs(q, b.binding, b.scopes);
        ChildKeyTells(r, binding + "\0" + Json(scopes), q, b.binding + "\0" + Json(b.scopes));
        ScopesAfterBinding(binding, scopes, b.binding, b.scopes);
      case OwnAsk(binding) =>
        OwnKeyIs(r, binding);
        OwnKeyIs(q, b.binding);
        OwnKeyTells(r, binding, q, b.binding);
    }
  }
}
