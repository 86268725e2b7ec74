/** How a mux pattern is spelled for the authority, and when two are spelled alike. */
module Routes {

  predicate EndsWith(s: string, tail: string) {
    |tail| <= |s| && s[|s| - |tail|..] == tail
  }

  const ANCHOR := "/{$}"
  const REST := "...}"
  const WILD := "=**}"
  const SUBTREE := "{path=**}"

  /** A subtree as its prefix and the rest of the path, a "{name...}" wildcard as
      "{name=**}", an anchor as the "/" it anchors, and anything else as it is. */
  function ServedRoute(path: string): string {
    if EndsWith(path, ANCHOR) then path[..|path| - 3]
    else if EndsWith(path, "/") then path + SUBTREE
    else if EndsWith(path, REST) then path[..|path| - 4] + WILD
    else path
  }

  /** Ending by ending. */
  lemma Endings(head: string)
    ensures ServedRoute(head + "/{$}") == head + "/"
    ensures ServedRoute(head + "/") == head + "/{path=**}"
    ensures ServedRoute(head + "...}") == head + "=**}"
    ensures !EndsWith(head, "/{$}") && !EndsWith(head, "/") && !EndsWith(head, "...}") ==> ServedRoute(head) == head
  {
    Tails(head, "/{$}");
    Tails(head, "...}");
    var anchored, subtree, rest := head + "/{$}", head + "/", head + "...}";
    assert anchored[..|anchored| - 3] == head + "/";
    assert subtree[|subtree| - 1] == '/' && subtree[|subtree| - 1..] == "/";
    LastDiffers(subtree, ANCHOR);
    assert subtree + SUBTREE == head + "/{path=**}";
    LastDiffers(rest, "/");
    LastButOneDiffers(rest, ANCHOR);
    assert rest[..|rest| - 4] == head;
  }

  // --- the four ways a pattern can end ---

  predicate IsAnchored(p: string) { EndsWith(p, ANCHOR) }
  predicate IsSubtree(p: string) { !EndsWith(p, ANCHOR) && EndsWith(p, "/") }
  predicate IsRest(p: string) { !EndsWith(p, ANCHOR) && !EndsWith(p, "/") && EndsWith(p, REST) }
  predicate IsPlain(p: string) { !EndsWith(p, ANCHOR) && !EndsWith(p, "/") && !EndsWith(p, REST) }

  lemma Tails(head: string, tail: string)
    ensures EndsWith(head + tail, tail)
    ensures |tail| >= 2 ==> (head + tail)[|head + tail| - 1] == tail[|tail| - 1]
    ensures |tail| >= 2 ==> (head + tail)[|head + tail| - 2] == tail[|tail| - 2]
  {
  }

  /** A last character other than the tail's own rules the tail out. */
  lemma LastDiffers(s: string, tail: string)
    requires s != "" && tail != "" && s[|s| - 1] != tail[|tail| - 1]
    ensures !EndsWith(s, tail)
  {
  }

  lemma Split(s: string, tail: string)
    requires EndsWith(s, tail)
    ensures s == s[..|s| - |tail|] + tail
  {
  }

  lemma OfAnchored(p: string)
    requires IsAnchored(p)
    ensures p == ServedRoute(p) + "{$}" && EndsWith(ServedRoute(p), "/")
  {
  }

  lemma OfSubtree(p: string)
    requires IsSubtree(p)
    ensures ServedRoute(p) == (p + "{path") + WILD && EndsWith(ServedRoute(p), WILD) && !EndsWith(ServedRoute(p), "/")
  {
    assert p + SUBTREE == (p + "{path") + WILD;
    Tails(p + "{path", WILD);
    LastDiffers(ServedRoute(p), "/");
  }

  lemma OfRest(p: string)
    requires IsRest(p)
    ensures var head := p[..|p| - 4];
            && p == head + REST && ServedRoute(p) == head + WILD
            && EndsWith(ServedRoute(p), WILD) && !EndsWith(ServedRoute(p), "/")
  {
  }

  lemma SameHead(a: string, b: string, tail: string)
    requires a + tail == b + tail
    ensures a == b
  {
    assert a == (a + tail)[..|a|] && b == (b + tail)[..|b|];
  }

  // --- collisions ---

  /** Two patterns spelled as one: a subtree "P/" against "P/{path...}" or against
      "P/{path=**}", and a pattern that ends "...}" against the same ending "=**}". */
  predicate Collide(p: string, q: string) {
    || (EndsWith(p, "/") && (q == p + "{path...}" || q == p + SUBTREE))
    || (EndsWith(p, REST) && q == p[..|p| - 4] + WILD)
  }

  lemma NamedSubtree(p: string)
    requires EndsWith(p, "/")
    ensures ServedRoute(p) == ServedRoute(p + "{path...}")
  {
    var q := p + "{path...}";
    Split(p, "/");
    assert p[|p| - 1] == '/';
    LastDiffers(p, ANCHOR);
    assert q == (p + "{path") + REST;
    Tails(p + "{path", REST);
    LastDiffers(q, "/");
    assert q[|q| - 4..][2] == q[|q| - 2] != ANCHOR[2];
    OfSubtree(p);
    OfRest(q);
    SameHead(p + "{path", q[..|q| - 4], REST);
  }

  lemma LastButOneDiffers(s: string, tail: string)
    requires |s| >= 2 && |tail| >= 2 && s[|s| - 2] != tail[|tail| - 2]
    ensures !EndsWith(s, tail)
  {
  }

  /** What is written as a wildcard is rewritten: spelled as it is. */
  lemma WildIsPlain(head: string)
    ensures IsPlain(head + WILD) && ServedRoute(head + WILD) == head + WILD
  {
    Tails(head, WILD);
    LastButOneDiffers(head + WILD, ANCHOR);
    LastButOneDiffers(head + WILD, REST);
    LastDiffers(head + WILD, "/");
  }

  lemma RewrittenRest(p: string)
    requires EndsWith(p, REST)
    ensures ServedRoute(p) == p[..|p| - 4] + WILD
  {
    Split(p, REST);
    Tails(p[..|p| - 4], REST);
    LastButOneDiffers(p, ANCHOR);
    LastDiffers(p, "/");
  }

  lemma CollideAlike(p: string, q: string)
    requires Collide(p, q)
    ensures ServedRoute(p) == ServedRoute(q)
  {
    if EndsWith(p, "/") {
      if q == p + "{path...}" { NamedSubtree(p); } else { WrittenSubtree(p); }
    } else {
      RewrittenRest(p);
      WildIsPlain(p[..|p| - 4]);
    }
  }

  lemma WrittenSubtree(p: string)
    requires EndsWith(p, "/")
    ensures ServedRoute(p) == p + SUBTREE == ServedRoute(p + SUBTREE)
  {
    Split(p, "/");
    assert p[|p| - 1] == '/';
    LastDiffers(p, ANCHOR);
    assert p + SUBTREE == (p + "{path") + WILD;
    WildIsPlain(p + "{path");
  }

  lemma RestsDiffer(p: string, q: string)
    requires IsRest(p) && IsRest(q) && ServedRoute(p) == ServedRoute(q)
    ensures p == q
  {
    SameHead(p[..|p| - 4], q[..|q| - 4], WILD);
    Split(p, REST);
    Split(q, REST);
  }

  lemma AlikeCollide(p: string, q: string)
    requires p != q && ServedRoute(p) == ServedRoute(q)
    ensures Collide(p, q) || Collide(q, p)
  {
    if IsAnchored(p) { OfAnchored(p); } else if IsSubtree(p) { OfSubtree(p); } else if IsRest(p) { OfRest(p); }
    if IsAnchored(q) { OfAnchored(q); } else if IsSubtree(q) { OfSubtree(q); } else if IsRest(q) { OfRest(q); }
    if IsSubtree(p) && IsSubtree(q) { SameHead(p, q, SUBTREE); }
    assert !(IsRest(p) && IsRest(q)) by { if IsRest(p) && IsRest(q) { RestsDiffer(p, q); } }
    if IsSubtree(p) && IsRest(q) { SubtreeAgainstRest(p, q); }
    if IsSubtree(q) && IsRest(p) { SubtreeAgainstRest(q, p); }
  }

  lemma SubtreeAgainstRest(p: string, q: string)
    requires IsSubtree(p) && IsRest(q) && ServedRoute(p) == ServedRoute(q)
    ensures q == p + "{path...}"
  {
    OfSubtree(p);
    OfRest(q);
    SameHead(p + "{path", q[..|q| - 4], WILD);
    assert p + "{path...}" == (p + "{path") + REST;
  }

  /** Over all strings: different patterns are spelled alike exactly in those
      ways. */
  lemma SpelledAlike(p: string, q: string)
    requires p != q
    ensures ServedRoute(p) == ServedRoute(q) <==> Collide(p, q) || Collide(q, p)
  {
    if ServedRoute(p) == ServedRoute(q) { AlikeCollide(p, q); }
    if Collide(p, q) { CollideAlike(p, q); }
    if Collide(q, p) { CollideAlike(q, p); }
  }

  /** So patterns none of which is written with "=**}" collide only as a subtree
      and its named form. */
  lemma OnlySubtreesCollide(p: string, q: string)
    requires p != q && !EndsWith(p, WILD) && !EndsWith(q, WILD)
    ensures ServedRoute(p) == ServedRoute(q) <==>
              (EndsWith(p, "/") && q == p + "{path...}") || (EndsWith(q, "/") && p == q + "{path...}")
  {
    SpelledAlike(p, q);
    OtherwiseWild(p, q);
    OtherwiseWild(q, p);
  }

  lemma OtherwiseWild(p: string, q: string)
    ensures Collide(p, q) ==> EndsWith(q, WILD) || (EndsWith(p, "/") && q == p + "{path...}")
  {
    assert p + SUBTREE == (p + "{path") + WILD;
    Tails(p + "{path", WILD);
    if EndsWith(p, REST) { Tails(p[..|p| - 4], WILD); }
  }

  /** The mux takes a segment without "{" as a literal, whatever it ends with, so
      the other way is open to it too. */
  lemma LiteralsCollide()
    ensures ServedRoute("/a...}") == ServedRoute("/a=**}") == "/a=**}"
  {
    assert "/a...}"[2..] == REST && "/a...}"[..2] == "/a";
    RewrittenRest("/a...}");
    assert "/a" + WILD == "/a=**}";
    WildIsPlain("/a");
  }

  /** A route that ends in a plain name is served as it is written. */
  lemma PlainEnding(path: string)
    requires path != "" && path[|path| - 1] != '}' && path[|path| - 1] != '/'
    ensures ServedRoute(path) == path
  {
  }
}
