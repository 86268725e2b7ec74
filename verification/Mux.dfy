/** The router's patterns, as Go's net/http documents them: what a pattern is read
    as, what it matches, and which of several matching patterns takes a request. */
module Mux {
  import opened Wrappers
  import opened Text

  /** A segment of a pattern: itself, or any one segment. */
  datatype Seg = Lit(text: string) | One

  /** How a pattern ends: with its last segment, with the slash after it alone, or
      with that slash and whatever follows. */
  datatype End = Exact | Anchored | Rest

  datatype Pattern = Pattern(segs: seq<Seg>, end: End)

  /** A path as the router splits it, each segment decoded; slash says it ends in one. */
  datatype Path = Path(segs: seq<string>, slash: bool)

  /** What the library decides: percent-decoding of a segment, and which names a
      wildcard may have. */
  datatype Library = Library(decode: string -> string, nameable: string -> bool)

  ghost predicate LikeHttp(lib: Library) {
    forall s :: '%' !in s ==> lib.decode(s) == s
  }

  // --- reading a pattern ---

  function Prepend(seg: Seg, p: Option<Pattern>): Option<Pattern> {
    if p.Some? then Some(Pattern([seg] + p.value.segs, p.value.end)) else None
  }

  predicate Trailing(name: string) {
    |name| >= 3 && name[|name| - 3..] == "..."
  }

  /** A pattern's segments, from its text between slashes. seen are the wildcard
      names before. */
  function ReadParts(lib: Library, parts: seq<string>, seen: set<string>): Option<Pattern>
    decreases |parts|
  {
    if parts == [] then Some(Pattern([], Exact))
    else if parts == [""] then Some(Pattern([], Rest))
    else
      var head, rest := parts[0], parts[1..];
      if '{' !in head then Prepend(Lit(lib.decode(head)), ReadParts(lib, rest, seen))
      else if head[0] != '{' || head[|head| - 1] != '}' then None
      else
        var name := head[1..|head| - 1];
        if name == "$" then if rest == [] then Some(Pattern([], Anchored)) else None
        else if Trailing(name) then
          var stem := name[..|name| - 3];
          if rest == [] && lib.nameable(stem) && stem !in seen then Some(Pattern([], Rest)) else None
        else if lib.nameable(name) && name !in seen then Prepend(One, ReadParts(lib, rest, seen + {name}))
        else None
  }

  /** A segment's wildcard, if it is one: its name, without the dots of one that runs
      to the end. */
  predicate IsWildcard(part: string) { '{' in part && part != "{$}" }

  function WildcardName(part: string): string
    requires |part| >= 2
  {
    var name := part[1..|part| - 1];
    if Trailing(name) then name[..|name| - 3] else name
  }

  /** A segment that can be read: with no brace, or one wildcard between braces that
      may be so named; an anchor, or a wildcard to the end, only as the last. */
  predicate CanBeRead(lib: Library, part: string, last: bool) {
    '{' in part ==>
      && |part| >= 2 && part[0] == '{' && part[|part| - 1] == '}'
      && (part == "{$}" ==> last)
      && (part != "{$}" ==> lib.nameable(WildcardName(part)) && (Trailing(part[1..|part| - 1]) ==> last))
  }

  predicate EachCanBeRead(lib: Library, parts: seq<string>) {
    forall i :: 0 <= i < |parts| ==> CanBeRead(lib, parts[i], i == |parts| - 1)
  }

  predicate NamedApart(parts: seq<string>, seen: set<string>) {
    && (forall i :: 0 <= i < |parts| && IsWildcard(parts[i]) && |parts[i]| >= 2 ==> WildcardName(parts[i]) !in seen)
    && (forall i, j :: 0 <= i < j < |parts| ==>
          (IsWildcard(parts[i]) && IsWildcard(parts[j]) && |parts[i]| >= 2 && |parts[j]| >= 2 ==>
             WildcardName(parts[i]) != WildcardName(parts[j])))
  }

  lemma EachAfterFirst(lib: Library, parts: seq<string>)
    requires |parts| > 1
    ensures EachCanBeRead(lib, parts) <==> CanBeRead(lib, parts[0], false) && EachCanBeRead(lib, parts[1..])
  {
    var rest := parts[1..];
    if CanBeRead(lib, parts[0], false) && EachCanBeRead(lib, rest) {
      assert forall i :: 0 < i < |parts| ==> parts[i] == rest[i - 1];
    }
    if EachCanBeRead(lib, parts) {
      assert forall i :: 0 <= i < |rest| ==> rest[i] == parts[i + 1];
    }
  }

  lemma ApartAfterFirst(parts: seq<string>, seen: set<string>)
    requires |parts| > 1
    ensures NamedApart(parts, seen) <==>
            if IsWildcard(parts[0]) && |parts[0]| >= 2 then
              WildcardName(parts[0]) !in seen && NamedApart(parts[1..], seen + {WildcardName(parts[0])})
            else NamedApart(parts[1..], seen)
  {
    var rest := parts[1..];
    assert forall i :: 0 < i < |parts| ==> parts[i] == rest[i - 1];
    assert forall i :: 0 <= i < |rest| ==> rest[i] == parts[i + 1];
  }

  lemma AnchorIs(part: string)
    requires |part| >= 2 && part[0] == '{' && part[|part| - 1] == '}'
    ensures part[1..|part| - 1] == "$" <==> part == "{$}"
  {
    if part[1..|part| - 1] == "$" { assert part == ['{'] + part[1..|part| - 1] + ['}']; }
  }

  lemma ReadFirst(lib: Library, parts: seq<string>, seen: set<string>)
    requires |parts| > 1
    ensures ReadParts(lib, parts, seen).Some? <==>
            && CanBeRead(lib, parts[0], false)
            && if IsWildcard(parts[0]) && |parts[0]| >= 2 then
                 WildcardName(parts[0]) !in seen && ReadParts(lib, parts[1..], seen + {WildcardName(parts[0])}).Some?
               else ReadParts(lib, parts[1..], seen).Some?
  {
    var head := parts[0];
    assert parts != [""] && parts[1..] != [];
    if |head| >= 2 && head[0] == '{' && head[|head| - 1] == '}' { AnchorIs(head); }
  }

  lemma ReadLast(lib: Library, part: string, seen: set<string>)
    ensures ReadParts(lib, [part], seen).Some? <==>
            && CanBeRead(lib, part, true) && (IsWildcard(part) && |part| >= 2 ==> WildcardName(part) !in seen)
  {
    assert [part][1..] == [] && ReadParts(lib, [], seen).Some?;
    if |part| >= 2 && part[0] == '{' && part[|part| - 1] == '}' {
      AnchorIs(part);
      assert ReadParts(lib, [], seen + {part[1..|part| - 1]}).Some?;
    }
  }

  /** A pattern is read exactly when each of its segments can be, and no two of its
      wildcards have one name. */
  lemma {:induction false} ReadIff(lib: Library, parts: seq<string>, seen: set<string>)
    requires parts != []
    ensures ReadParts(lib, parts, seen).Some? <==> EachCanBeRead(lib, parts) && NamedApart(parts, seen)
    decreases |parts|
  {
    if |parts| > 1 {
      EachAfterFirst(lib, parts);
      ApartAfterFirst(parts, seen);
      ReadFirst(lib, parts, seen);
      ReadIff(lib, parts[1..], seen);
      if IsWildcard(parts[0]) && |parts[0]| >= 2 { ReadIff(lib, parts[1..], seen + {WildcardName(parts[0])}); }
    } else {
      assert parts == [parts[0]];
      ReadLast(lib, parts[0], seen);
    }
  }

  /** A blank in it would make what comes before a method. */
  function Read(lib: Library, path: string): Option<Pattern> {
    if path == "" || path[0] != '/' || ' ' in path || '\t' in path then None
    else ReadParts(lib, Split(path[1..], '/'), {})
  }

  lemma {:induction false} RestAtTheEnd(lib: Library, parts: seq<string>, seen: set<string>)
    requires parts != [] && parts[|parts| - 1] == "" && ReadParts(lib, parts, seen).Some?
    ensures ReadParts(lib, parts, seen).value.end == Rest
    decreases |parts|
  {
    if |parts| > 1 {
      var head, rest := parts[0], parts[1..];
      if '{' !in head {
        RestAtTheEnd(lib, rest, seen);
      } else if !Trailing(head[1..|head| - 1]) {
        RestAtTheEnd(lib, rest, seen + {head[1..|head| - 1]});
      }
    } else {
      assert parts == [""];
    }
  }

  lemma {:induction false} SplitEndsEmpty(s: string)
    requires s != "" && s[|s| - 1] == '/'
    ensures var parts := Split(s, '/'); parts[|parts| - 1] == ""
  {
    if |s| > 1 {
      SplitEndsEmpty(s[1..]);
    } else {
      assert s[1..] == "";
    }
  }

  /** A pattern that is written with a slash last is a subtree. */
  lemma SlashIsRest(lib: Library, path: string)
    requires Read(lib, path).Some? && path[|path| - 1] == '/'
    ensures Read(lib, path).value.end == Rest
  {
    if |path| > 1 { SplitEndsEmpty(path[1..]); } else { assert path[1..] == ""; }
    RestAtTheEnd(lib, Split(path[1..], '/'), {});
  }

  // --- matching ---

  predicate SegMatches(seg: Seg, s: string) {
    seg.One? || seg.text == s
  }

  predicate Begins(segs: seq<Seg>, x: seq<string>) {
    |segs| <= |x| && forall i :: 0 <= i < |segs| ==> SegMatches(segs[i], x[i])
  }

  predicate Matches(p: Pattern, x: Path) {
    && Begins(p.segs, x.segs)
    && match p.end
       case Exact => !x.slash && |x.segs| == |p.segs|
       case Anchored => x.slash && |x.segs| == |p.segs|
       case Rest => |x.segs| > |p.segs| || x.slash
  }

  /** Paths come to the router cleaned: no segment is empty. */
  predicate Clean(x: Path) {
    "" !in x.segs
  }

  // --- precedence ---

  ghost predicate Within(p: Pattern, q: Pattern) {
    forall x :: Matches(p, x) ==> Matches(q, x)
  }

  /** More specific: it matches strictly less. */
  ghost predicate MoreSpecific(p: Pattern, q: Pattern) {
    Within(p, q) && !Within(q, p)
  }

  /** Two patterns that match one path, neither more specific: the router panics. */
  ghost predicate Conflict(p: Pattern, q: Pattern) {
    && (exists x :: Matches(p, x) && Matches(q, x))
    && !MoreSpecific(p, q) && !MoreSpecific(q, p)
  }

  lemma OneIsWider(p: Pattern, q: Pattern, x: Path)
    requires Matches(p, x) && Matches(q, x) && !Conflict(p, q)
    ensures MoreSpecific(p, q) || MoreSpecific(q, p)
  {
  }

  function Pat(lib: Library, path: string): Pattern
    requires Read(lib, path).Some?
  {
    Read(lib, path).value
  }

  /** Patterns the router takes together: each can be read, and no two conflict. */
  ghost predicate Registers(lib: Library, paths: set<string>) {
    && (forall p :: p in paths ==> Read(lib, p).Some?)
    && (forall p, q :: p in paths && q in paths && p != q ==> !Conflict(Pat(lib, p), Pat(lib, q)))
  }

  /** A pattern that matches a path exactly once it has a slash after it: with
      nothing left over for a subtree. */
  predicate ExactWithSlash(q: Pattern, x: Path) {
    |q.segs| == |x.segs| && Matches(q, Path(x.segs, true))
  }

  /** A path with no slash after it that only a subtree above it would take, while
      with one some pattern matches it exactly: the router redirects it there, and no
      pattern takes it. */
  ghost predicate Redirected(lib: Library, paths: set<string>, p: string, x: Path)
    requires forall q :: q in paths ==> Read(lib, q).Some?
  {
    p in paths && Pat(lib, p).end == Rest && !x.slash && exists q :: q in paths && ExactWithSlash(Pat(lib, q), x)
  }

  /** The pattern that takes a path: it matches, every other that does is less
      specific, and the path is not redirected. */
  ghost predicate Takes(lib: Library, paths: set<string>, p: string, x: Path)
    requires forall q :: q in paths ==> Read(lib, q).Some?
  {
    && p in paths && Matches(Pat(lib, p), x) && !Redirected(lib, paths, p, x)
    && forall q :: q in paths && q != p && Matches(Pat(lib, q), x) ==> MoreSpecific(Pat(lib, p), Pat(lib, q))
  }

  lemma OneTakes(lib: Library, paths: set<string>, p: string, q: string, x: Path)
    requires (forall o :: o in paths ==> Read(lib, o).Some?) && Takes(lib, paths, p, x) && Takes(lib, paths, q, x)
    ensures p == q
  {
  }

  // --- a path that only what is general enough matches ---

  /** A segment none of the patterns spells out. */
  ghost predicate Fresh(lib: Library, paths: set<string>, f: string)
    requires forall q :: q in paths ==> Read(lib, q).Some?
  {
    f != "" && forall q :: q in paths ==> Lit(f) !in Pat(lib, q).segs
  }

  function SegTexts(segs: seq<Seg>): set<string> {
    set i | 0 <= i < |segs| && segs[i].Lit? :: segs[i].text
  }

  lemma FreshExists(lib: Library, paths: set<string>) returns (f: string)
    requires forall q :: q in paths ==> Read(lib, q).Some?
    ensures Fresh(lib, paths, f)
  {
    var texts := set q, t | q in paths && t in SegTexts(Pat(lib, q).segs) :: t;
    f := LongerThan(texts);
    forall q, i | q in paths && 0 <= i < |Pat(lib, q).segs| && Pat(lib, q).segs[i].Lit?
      ensures Pat(lib, q).segs[i].text in texts
    {
      assert Pat(lib, q).segs[i].text in SegTexts(Pat(lib, q).segs);
    }
  }

  lemma LongerThan(texts: set<string>) returns (f: string)
    ensures f != "" && forall t :: t in texts ==> |t| < |f|
  {
    if texts == {} {
      f := "x";
    } else {
      var t :| t in texts;
      var g := LongerThan(texts - {t});
      f := g + t;
    }
  }

  /** A pattern's path with f wherever any segment will do, n more of it after. */
  function Filled(segs: seq<Seg>, f: string, n: nat): seq<string> {
    seq(|segs| + n, i requires 0 <= i < |segs| + n => if i < |segs| && segs[i].Lit? then segs[i].text else f)
  }

  predicate SegWithin(a: Seg, b: Seg) { b.One? || a == b }

  /** What matches such a path is as general, segment by segment, and further on
      spells nothing out. */
  lemma FilledMatch(p: seq<Seg>, f: string, n: nat, q: seq<Seg>)
    requires Lit(f) !in q && Begins(q, Filled(p, f, n))
    ensures |q| <= |p| + n
    ensures forall i :: 0 <= i < |q| ==> if i < |p| then SegWithin(p[i], q[i]) else q[i].One?
  {
    forall i | 0 <= i < |q| ensures if i < |p| then SegWithin(p[i], q[i]) else q[i].One? {
      assert SegMatches(q[i], Filled(p, f, n)[i]) && q[i] in q;
    }
  }

  lemma FilledIsMatched(p: Pattern, f: string, n: nat, slash: bool)
    requires p.end == Rest || n == 0
    requires match p.end case Exact => !slash case Anchored => slash case Rest => n > 0 || slash
    ensures Matches(p, Path(Filled(p.segs, f, n), slash))
  {
  }

  /** Enough for one pattern to match within another. */
  predicate Below(p: Pattern, q: Pattern) {
    && |q.segs| <= |p.segs| && (forall i :: 0 <= i < |q.segs| ==> SegWithin(p.segs[i], q.segs[i]))
    && if q.end == Rest then (p.end == Exact ==> |p.segs| > |q.segs|) else p.end == q.end && |p.segs| == |q.segs|
  }

  lemma BelowIsWithin(p: Pattern, q: Pattern)
    requires Below(p, q)
    ensures Within(p, q)
  {
  }

  // --- which patterns are reached ---

  /** Some request is taken by the pattern. */
  ghost predicate Reached(lib: Library, paths: set<string>, p: string)
    requires forall q :: q in paths ==> Read(lib, q).Some?
  {
    exists x :: Clean(x) && Takes(lib, paths, p, x)
  }

  /** A pattern with n more wildcards before its end. */
  function Longer(p: Pattern, n: nat, end: End): Pattern {
    Pattern(p.segs + seq(n, _ => One), end)
  }

  ghost predicate Declared(lib: Library, paths: set<string>, pat: Pattern)
    requires forall q :: q in paths ==> Read(lib, q).Some?
  {
    exists q :: q in paths && Pat(lib, q) == pat
  }

  /** A subtree none of whose paths is left to it: there is a subtree some segments
      below it, and at every length above that a pattern for the path with a slash
      after it, which a path without one is redirected to. */
  ghost predicate Exhausted(lib: Library, paths: set<string>, p: Pattern)
    requires forall q :: q in paths ==> Read(lib, q).Some?
  {
    p.end == Rest && exists d: nat :: ExhaustedAt(lib, paths, p, d)
  }

  ghost predicate ExhaustedAt(lib: Library, paths: set<string>, p: Pattern, d: nat)
    requires forall q :: q in paths ==> Read(lib, q).Some?
  {
    && d >= 1 && Declared(lib, paths, Longer(p, d, Rest))
    && forall j: nat :: j < d ==> Declared(lib, paths, Longer(p, j, Anchored))
  }

  /** A more specific pattern for a path leaves nothing of it to a wider one. */
  lemma TakenBelow(lib: Library, paths: set<string>, p: string, x: Path, pat: Pattern)
    requires (forall q :: q in paths ==> Read(lib, q).Some?) && p in paths
    requires Declared(lib, paths, pat) && Matches(pat, x) && Below(pat, Pat(lib, p)) && pat != Pat(lib, p)
    ensures !Takes(lib, paths, p, x)
  {
    BelowIsWithin(pat, Pat(lib, p));
  }

  /** Nor does one that matches it exactly with a slash after it, when it has none. */
  lemma RedirectedBelow(lib: Library, paths: set<string>, p: string, x: Path, pat: Pattern)
    requires (forall q :: q in paths ==> Read(lib, q).Some?) && p in paths
    requires Declared(lib, paths, pat) && ExactWithSlash(pat, x) && Pat(lib, p).end == Rest && !x.slash
    ensures !Takes(lib, paths, p, x)
  {
  }

  lemma ExhaustedTakesNothing(lib: Library, paths: set<string>, p: string, d: nat, x: Path)
    requires (forall q :: q in paths ==> Read(lib, q).Some?) && p in paths
    requires Pat(lib, p).end == Rest && ExhaustedAt(lib, paths, Pat(lib, p), d)
    ensures !Takes(lib, paths, p, x)
  {
    var pat := Pat(lib, p);
    if Matches(pat, x) {
      var n := |x.segs| - |pat.segs|;
      if n > d || (n == d && x.slash) {
        TakenBelow(lib, paths, p, x, Longer(pat, d, Rest));
      } else if x.slash {
        TakenBelow(lib, paths, p, x, Longer(pat, n, Anchored));
      } else if n == d {
        RedirectedBelow(lib, paths, p, x, Longer(pat, d, Rest));
      } else {
        RedirectedBelow(lib, paths, p, x, Longer(pat, n, Anchored));
      }
    }
  }

  /** A length at which nothing cuts in: filled afresh, with n more segments and a
      slash, the path is matched by no pattern that is the same one further down. */
  ghost predicate Uncut(lib: Library, paths: set<string>, p: Pattern, n: nat)
    requires forall q :: q in paths ==> Read(lib, q).Some?
  {
    && !Declared(lib, paths, Longer(p, n, Anchored))
    && forall d: nat :: 1 <= d <= n ==> !Declared(lib, paths, Longer(p, d, Rest))
  }

  /** There is one, unless the subtree is exhausted: patterns have bounded length. */
  lemma {:induction false} UncutExists(lib: Library, paths: set<string>, p: Pattern, j: nat, bound: nat)
    returns (n: nat)
    requires forall q :: q in paths ==> Read(lib, q).Some? && |Pat(lib, q).segs| < |p.segs| + bound
    requires p.end == Rest && !Exhausted(lib, paths, p) && j <= bound
    requires forall i: nat :: i < j ==> Declared(lib, paths, Longer(p, i, Anchored))
    requires forall d: nat :: 1 <= d <= j ==> !Declared(lib, paths, Longer(p, d, Rest))
    ensures Uncut(lib, paths, p, n)
    decreases bound - j
  {
    if !Declared(lib, paths, Longer(p, j, Anchored)) {
      return j;
    }
    assert |Longer(p, j, Anchored).segs| == |p.segs| + j;
    if Declared(lib, paths, Longer(p, j + 1, Rest)) {
      assert ExhaustedAt(lib, paths, p, j + 1);
    }
    n := UncutExists(lib, paths, p, j + 1, bound);
  }

  /** A pattern more general in some segment, and not in all, conflicts. */
  lemma Crossing(p: Pattern, q: Pattern, f: string, x: Path, i: nat)
    requires Matches(p, x) && Matches(q, x) && Lit(f) !in p.segs && Lit(f) !in q.segs
    requires p.end == Rest && |p.segs| <= |q.segs| && (|p.segs| == |q.segs| ==> q.end != Rest)
    requires i < |p.segs| && p.segs[i].Lit? && q.segs[i].One?
    ensures Conflict(p, q)
  {
    var n := if q.end == Rest then 1 else 0;
    var y := Path(Filled(q.segs, f, n), q.end == Anchored);
    FilledIsMatched(q, f, n, q.end == Anchored);
    assert y.segs[i] == f && !SegMatches(p.segs[i], y.segs[i]);
    assert Matches(q, y) && !Matches(p, y);
    var m := if |p.segs| == |q.segs| then 1 else 0;
    FilledIsMatched(p, f, m, m == 0);
    var z := Path(Filled(p.segs, f, m), m == 0);
    assert Matches(p, z) && !Matches(q, z);
  }

  /** The path by which a pattern is reached: no segments of any sort beyond an
      exact or anchored one, an uncut length below a subtree. */
  ghost predicate Aims(lib: Library, paths: set<string>, p: Pattern, n: nat, slash: bool)
    requires forall q :: q in paths ==> Read(lib, q).Some?
  {
    match p.end
    case Exact => n == 0 && !slash
    case Anchored => n == 0 && slash
    case Rest => slash && Uncut(lib, paths, p, n)
  }

  lemma OthersAreWider(lib: Library, paths: set<string>, p: string, q: string, f: string, n: nat, slash: bool)
    requires Registers(lib, paths) && Fresh(lib, paths, f) && p in paths && q in paths && p != q
    requires Aims(lib, paths, Pat(lib, p), n, slash)
    requires Matches(Pat(lib, q), Path(Filled(Pat(lib, p).segs, f, n), slash))
    ensures MoreSpecific(Pat(lib, p), Pat(lib, q))
  {
    var a, b := Pat(lib, p), Pat(lib, q);
    var x := Path(Filled(a.segs, f, n), slash);
    FilledIsMatched(a, f, n, slash);
    FilledMatch(a.segs, f, n, b.segs);
    if Below(a, b) {
      BelowIsWithin(a, b);
    } else {
      var d: nat := |b.segs| - |a.segs|;
      assert Declared(lib, paths, b);
      assert b != Longer(a, d, b.end);
      assert (forall i :: 0 <= i < |a.segs| ==> b.segs[i] == a.segs[i]) ==> b.segs == Longer(a, d, b.end).segs;
      var i :| 0 <= i < |a.segs| && b.segs[i] != a.segs[i];
      Crossing(a, b, f, x, i);
    }
  }

  /** Among patterns the router takes together, one is reached exactly when it has
      no empty segment and is no exhausted subtree. */
  lemma ReachedIff(lib: Library, paths: set<string>, p: string)
    requires Registers(lib, paths) && p in paths
    ensures Reached(lib, paths, p) <==> Lit("") !in Pat(lib, p).segs && !Exhausted(lib, paths, Pat(lib, p))
  {
    var pat := Pat(lib, p);
    if Reached(lib, paths, p) {
      var x :| Clean(x) && Takes(lib, paths, p, x);
      assert forall i :: 0 <= i < |pat.segs| ==> SegMatches(pat.segs[i], x.segs[i]);
      if pat.end == Rest && exists d: nat :: ExhaustedAt(lib, paths, pat, d) {
        var d: nat :| ExhaustedAt(lib, paths, pat, d);
        ExhaustedTakesNothing(lib, paths, p, d, x);
      }
    }
    if Lit("") !in pat.segs && !Exhausted(lib, paths, pat) {
      var f := FreshExists(lib, paths);
      var n, slash := AimExists(lib, paths, pat);
      var x := Path(Filled(pat.segs, f, n), slash);
      FilledIsMatched(pat, f, n, slash);
      forall q | q in paths && q != p && Matches(Pat(lib, q), x) ensures MoreSpecific(pat, Pat(lib, q)) {
        OthersAreWider(lib, paths, p, q, f, n, slash);
      }
      assert Clean(x) && Takes(lib, paths, p, x);
    }
  }

  lemma AimExists(lib: Library, paths: set<string>, p: Pattern) returns (n: nat, slash: bool)
    requires (forall q :: q in paths ==> Read(lib, q).Some?) && !Exhausted(lib, paths, p)
    ensures Aims(lib, paths, p, n, slash)
  {
    match p.end {
      case Exact => n, slash := 0, false;
      case Anchored => n, slash := 0, true;
      case Rest =>
        var bound := Longest(lib, paths);
        slash := true;
        n := UncutExists(lib, paths, p, 0, bound + 1);
    }
  }

  lemma Longest(lib: Library, paths: set<string>) returns (bound: nat)
    requires forall q :: q in paths ==> Read(lib, q).Some?
    ensures forall q :: q in paths ==> |Pat(lib, q).segs| <= bound
  {
    bound := 0;
    var rest := paths;
    while rest != {}
      invariant rest <= paths && forall q :: q in paths && q !in rest ==> |Pat(lib, q).segs| <= bound
    {
      var q :| q in rest;
      if |Pat(lib, q).segs| > bound { bound := |Pat(lib, q).segs|; }
      rest := rest - {q};
    }
  }

  // --- a subtree can be exhausted ---

  /** What is read under "/a/". */
  lemma ReadUnderA(lib: Library, rest: string, parts: seq<string>, p: Pattern)
    requires LikeHttp(lib) && Split(rest, '/') == parts && ' ' !in rest && '\t' !in rest
    requires ReadParts(lib, parts, {}) == Some(p)
    ensures Read(lib, "/a/" + rest) == Some(Pattern([Lit("a")] + p.segs, p.end))
  {
    SplitHead("a", rest, '/');
    assert "/a/" == ['/'] + ("a" + ['/']) && ("/a/" + rest)[1..] == "a" + ['/'] + rest;
    assert (["a"] + parts)[1..] == parts && '%' !in "a" && parts != [];
  }

  lemma ReadRest(lib: Library)
    requires LikeHttp(lib)
    ensures Read(lib, "/a/" + "") == Some(Pattern([Lit("a")], Rest))
  {
    SplitHead("", "", '/');
    ReadUnderA(lib, "", [""], Pattern([], Rest));
    assert [Lit("a")] + [] == [Lit("a")];
  }

  lemma ReadAnchor(lib: Library)
    requires LikeHttp(lib)
    ensures Read(lib, "/a/" + "{$}") == Some(Pattern([Lit("a")], Anchored))
  {
    SplitHead("{$}", "", '/');
    assert "{$}"[1..2] == "$" && ["{$}"][1..] == [];
    ReadUnderA(lib, "{$}", ["{$}"], Pattern([], Anchored));
    assert [Lit("a")] + [] == [Lit("a")];
  }

  lemma ReadWildParts(lib: Library)
    requires lib.nameable("x")
    ensures ReadParts(lib, ["{x}", ""], {}) == Some(Pattern([One], Rest))
  {
    assert "{x}"[1..2] == "x" && ["{x}", ""][1..] == [""];
    assert {} + {"x"} == {"x"} && ReadParts(lib, [""], {"x"}) == Some(Pattern([], Rest));
    assert [One] + [] == [One];
  }

  lemma ReadWildSubtree(lib: Library)
    requires LikeHttp(lib) && lib.nameable("x")
    ensures Read(lib, "/a/" + "{x}/") == Some(Pattern([Lit("a"), One], Rest))
  {
    SplitHead("{x}", "", '/');
    assert "{x}/" == "{x}" + ['/'] + "" && Split("", '/') == [""];
    ReadWildParts(lib);
    ReadUnderA(lib, "{x}/", ["{x}", ""], Pattern([One], Rest));
    assert [Lit("a")] + [One] == [Lit("a"), One];
  }

  /** Three patterns the router takes together, the first of which nothing reaches:
      what has no slash after it is redirected. */
  lemma SubtreeUsedUp(lib: Library)
    requires LikeHttp(lib) && lib.nameable("x")
    ensures var used := {"/a/" + "", "/a/" + "{$}", "/a/" + "{x}/"};
            Registers(lib, used) && !Reached(lib, used, "/a/" + "")
  {
    ReadRest(lib);
    ReadAnchor(lib);
    ReadWildSubtree(lib);
    ThreeTogether(lib, "/a/" + "", "/a/" + "{$}", "/a/" + "{x}/");
  }

  lemma ThreeTogether(lib: Library, a: string, b: string, c: string)
    requires Read(lib, a) == Some(Pattern([Lit("a")], Rest)) && Read(lib, b) == Some(Pattern([Lit("a")], Anchored))
    requires Read(lib, c) == Some(Pattern([Lit("a"), One], Rest))
    ensures Registers(lib, {a, b, c}) && !Reached(lib, {a, b, c}, a)
  {
    UsedUpIsTaken(Pat(lib, a));
    assert Registers(lib, {a, b, c});
    UsedUpIsNotReached(lib, {a, b, c}, a);
  }

  lemma UsedUpIsNotReached(lib: Library, paths: set<string>, p: string)
    requires (forall q :: q in paths ==> Read(lib, q).Some?) && p in paths && Pat(lib, p) == Pattern([Lit("a")], Rest)
    requires Declared(lib, paths, Pattern([Lit("a")], Anchored)) && Declared(lib, paths, Pattern([Lit("a"), One], Rest))
    ensures !Reached(lib, paths, p)
  {
    var all := Pat(lib, p);
    assert Longer(all, 0, Anchored) == Pattern([Lit("a")], Anchored);
    assert Longer(all, 1, Rest) == Pattern([Lit("a"), One], Rest);
    assert ExhaustedAt(lib, paths, all, 1);
    forall x ensures !Takes(lib, paths, p, x) { ExhaustedTakesNothing(lib, paths, p, 1, x); }
  }

  lemma UsedUpIsTaken(all: Pattern)
    requires all == Pattern([Lit("a")], Rest)
    ensures MoreSpecific(Pattern([Lit("a")], Anchored), all)
    ensures MoreSpecific(Pattern([Lit("a"), One], Rest), all)
  {
    BelowIsWithin(Pattern([Lit("a")], Anchored), all);
    BelowIsWithin(Pattern([Lit("a"), One], Rest), all);
    assert Matches(all, Path(["a"], true)) && !Matches(Pattern([Lit("a"), One], Rest), Path(["a"], true));
    assert Matches(all, Path(["a", "b"], false)) && !Matches(Pattern([Lit("a")], Anchored), Path(["a", "b"], false));
  }
}
