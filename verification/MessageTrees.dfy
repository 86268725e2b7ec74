/** Applying a response allowlist: the copy of a message is pruned in place. */
module MessageTrees {
  import opened Wrappers
  import opened Text
  import opened MaskLaws
  import opened FieldMasks

  // --- a message on the heap ---

  /** A populated field of a message on the heap. */
  datatype Slot =
    | HLeaf(repr: string)
    | HSub(message: HeapMessage)
    | HMany(messages: seq<HeapMessage>)

  function Kids(s: Slot): seq<HeapMessage> {
    match s
    case HLeaf(_) => []
    case HSub(m) => [m]
    case HMany(ms) => ms
  }

  /** A place in a message tree: the steps from its root. */
  type Place = seq<Step>

  function Inner(p: Place, f: string, i: nat): (r: Place)
    ensures |r| == |p| + 1 && r[..|p|] == p && r[|p|] == (f, i)
  {
    p + [(f, i)]
  }

  class HeapMessage {
    /** Where in its tree it is; each message has one place. */
    ghost const at: Place
    var fields: map<string, Slot>

    constructor (ghost at: Place, fields: map<string, Slot>)
      ensures this.at == at && this.fields == fields
    {
      this.at, this.fields := at, fields;
    }
  }

  type Tree = map<Place, HeapMessage>

  /** What the messages of a tree hold, at one moment. */
  type Contents = map<Place, map<string, Slot>>

  ghost function Now(tree: Tree): (c: Contents)
    reads tree.Values
    ensures c.Keys == tree.Keys && forall p :: p in tree ==> c[p] == tree[p].fields
  {
    map p | p in tree :: tree[p].fields
  }

  /** Every message is at its place, and so is every message inside it. */
  ghost predicate IsTree(tree: Tree, c: Contents) {
    && c.Keys == tree.Keys
    && (forall p :: p in tree ==> tree[p].at == p)
    && (forall p, f, i: nat :: p in c && f in c[p] && i < |Kids(c[p][f])| ==>
          Inner(p, f, i) in tree && tree[Inner(p, f, i)] == Kids(c[p][f])[i])
  }

  /** The message at a place is, field by field, a value. */
  ghost predicate Holds(c: Contents, p: Place, m: Message)
    decreases m
  {
    && p in c
    && c[p].Keys == m.fields.Keys
    && forall f :: f in m.fields ==> SlotHolds(c, p, f, c[p][f], m.fields[f])
  }

  ghost predicate SlotHolds(c: Contents, p: Place, f: string, s: Slot, v: Value)
    decreases v
  {
    match v
    case Leaf(repr) => s == HLeaf(repr)
    case Sub(m) => s.HSub? && Holds(c, Inner(p, f, 0), m)
    case Many(ms) => s.HMany? && |s.messages| == |ms| && forall i :: 0 <= i < |ms| ==> Holds(c, Inner(p, f, i), ms[i])
  }

  /** The messages at a place and inside it. */
  ghost function Below(tree: Tree, p: Place): set<HeapMessage> {
    set q | q in tree && p <= q :: tree[q]
  }

  /** The messages inside one field of the message at a place. */
  ghost function Within(tree: Tree, p: Place, f: string): set<HeapMessage> {
    set q | q in tree && p < q && q[|p|].0 == f :: tree[q]
  }

  /** Whatever is at or inside a place is there too, and the same. */
  ghost predicate SameBelow(c: Contents, e: Contents, p: Place) {
    forall q :: q in c && p <= q ==> q in e && c[q] == e[q]
  }

  /** Whatever is inside one field of the message at a place is there too. */
  ghost predicate SameWithin(c: Contents, e: Contents, p: Place, f: string) {
    forall q :: q in c && p < q && q[|p|].0 == f ==> q in e && c[q] == e[q]
  }

  /** Nothing changed but at or inside a place. */
  ghost predicate SameOutside(c: Contents, e: Contents, p: Place) {
    c.Keys == e.Keys && forall q :: q in c && !(p <= q) ==> c[q] == e[q]
  }

  /** Nothing changed but inside one field of the message at a place. */
  ghost predicate SameOutsideField(c: Contents, e: Contents, p: Place, f: string) {
    c.Keys == e.Keys && forall q :: q in c && !(p < q && q[|p|].0 == f) ==> c[q] == e[q]
  }

  lemma SiblingsAreApart(c: Contents, e: Contents, p: Place, f: string, k: nat, g: string, i: nat)
    requires SameOutside(c, e, Inner(p, f, k)) && (g != f || i != k)
    ensures SameBelow(c, e, Inner(p, g, i))
  {
  }

  /** What a place holds depends on nothing elsewhere in the tree. */
  lemma {:induction false} HoldsElsewhere(c: Contents, e: Contents, p: Place, m: Message)
    requires Holds(c, p, m) && SameBelow(c, e, p)
    ensures Holds(e, p, m)
    decreases m
  {
    forall f | f in m.fields ensures SlotHolds(e, p, f, e[p][f], m.fields[f]) {
      SlotHoldsElsewhere(c, e, p, f, c[p][f], m.fields[f]);
    }
  }

  lemma {:induction false} SlotHoldsElsewhere(c: Contents, e: Contents, p: Place, f: string, s: Slot, v: Value)
    requires SlotHolds(c, p, f, s, v) && SameWithin(c, e, p, f)
    ensures SlotHolds(e, p, f, s, v)
    decreases v
  {
    match v {
      case Leaf(_) =>
      case Sub(m) => HoldsElsewhere(c, e, Inner(p, f, 0), m);
      case Many(ms) =>
        forall i | 0 <= i < |ms| ensures Holds(e, Inner(p, f, i), ms[i]) {
          HoldsElsewhere(c, e, Inner(p, f, i), ms[i]);
        }
    }
  }

  // --- the trie's nodes and the values' paths ---

  /** What the declared paths say from a path on. */
  function From(declared: set<Path>, p: Path): (r: set<Path>)
    ensures forall q :: q in r <==> p + q in declared
  {
    var r := set d | d in declared && p <= d :: d[|p|..];
    assert forall q :: p + q in declared ==> (p + q)[|p|..] == q && q in r;
    assert forall q :: q in r ==> exists d :: d in declared && p <= d && d[|p|..] == q && d == p + q;
    r
  }

  lemma UnderFrom(declared: set<Path>, p: Path, name: string)
    ensures Under(From(declared, p), name) == From(declared, Further(p, name))
  {
  }

  /** A node allows all exactly when its path is declared, and has a child for
      exactly the names some declared path goes on with. */
  lemma NodeIsFrom(mask: FieldMask, p: Path, name: string)
    requires mask.Valid() && mask.Tight() && p in mask.nodes
    ensures mask.nodes[p].all <==> [] in From(mask.Declared(), p)
    ensures name in mask.nodes[p].children <==> From(mask.Declared(), Further(p, name)) != {}
  {
    assert p + [] == p;
    var next := Further(p, name);
    if name in mask.nodes[p].children {
      var d := mask.OnTheWay(next);
      assert next + d[|next|..] == d;
      assert d[|next|..] in From(mask.Declared(), next);
    }
    if From(mask.Declared(), next) != {} {
      var q :| q in From(mask.Declared(), next);
      mask.PrefixIsNode(next, next + q);
    }
  }

  /** No declared path goes into what has no messages. */
  predicate Fits(declared: set<Path>, m: Message)
    decreases m
  {
    || [] in declared
    || forall f :: f in m.fields && Under(declared, f) != {} ==> FitsValue(Under(declared, f), m.fields[f])
  }

  predicate FitsValue(declared: set<Path>, v: Value)
    decreases v
  {
    match v
    case Leaf(_) => [] in declared
    case Sub(m) => Fits(declared, m)
    case Many(ms) => forall i :: 0 <= i < |ms| ==> Fits(declared, ms[i])
  }

  // --- pruning ---

  /** The node of a mask whose declared paths, from it on, are d. */
  ghost predicate Stands(mask: FieldMask, node: MaskNode, d: set<Path>)
    reads mask, mask.Repr
  {
    && mask.Valid() && mask.Tight()
    && node.at in mask.nodes && mask.nodes[node.at] == node
    && d == From(mask.Declared(), node.at)
  }

  lemma StandsBelow(mask: FieldMask, node: MaskNode, d: set<Path>, name: string)
    requires Stands(mask, node, d)
    ensures node.all <==> [] in d
    ensures name in node.children <==> Under(d, name) != {}
    ensures name in node.children ==> Stands(mask, node.children[name], Under(d, name))
  {
    NodeIsFrom(mask, node.at, name);
    UnderFrom(mask.Declared(), node.at, name);
  }

  ghost predicate FitEach(d: set<Path>, ms: seq<Message>) {
    forall i :: 0 <= i < |ms| ==> Fits(d, ms[i])
  }

  /** The first n messages of a field are pruned, the others as they were. */
  ghost predicate FirstPruned(c: Contents, p: Place, f: string, d: set<Path>, ms: seq<Message>, n: nat) {
    forall i :: 0 <= i < |ms| ==> Holds(c, Inner(p, f, i), if i < n then Filter(d, ms[i]) else ms[i])
  }

  lemma OneOfManyPruned(c: Contents, e: Contents, p: Place, f: string, d: set<Path>, ms: seq<Message>, k: nat)
    requires k < |ms| && FirstPruned(c, p, f, d, ms, k)
    requires SameOutside(c, e, Inner(p, f, k)) && Holds(e, Inner(p, f, k), Filter(d, ms[k]))
    ensures FirstPruned(e, p, f, d, ms, k + 1)
  {
    forall i | 0 <= i < |ms| ensures Holds(e, Inner(p, f, i), if i < k + 1 then Filter(d, ms[i]) else ms[i]) {
      if i != k {
        SiblingsAreApart(c, e, p, f, k, f, i);
        HoldsElsewhere(c, e, Inner(p, f, i), if i < k then Filter(d, ms[i]) else ms[i]);
      }
    }
  }

  /** Prune the next message of a repeated field, in place. */
  method PruneNext(mask: FieldMask, ghost tree: Tree, ghost p: Place, ghost f: string,
                   messages: seq<HeapMessage>, node: MaskNode, ghost d: set<Path>, ghost ms: seq<Message>, k: nat)
    requires Stands(mask, node, d) && IsTree(tree, Now(tree))
    requires k < |messages| == |ms| && Inner(p, f, k) in tree && tree[Inner(p, f, k)] == messages[k]
    requires FirstPruned(Now(tree), p, f, d, ms, k) && FitEach(d, ms)
    modifies Within(tree, p, f)
    ensures IsTree(tree, Now(tree)) && SameOutsideField(old(Now(tree)), Now(tree), p, f)
    ensures FirstPruned(Now(tree), p, f, d, ms, k + 1)
    decreases ms, 1, 0
  {
    ghost var before := Now(tree);
    Prune(mask, tree, messages[k], node, d, ms[k]);
    OneOfManyPruned(before, Now(tree), p, f, d, ms, k);
  }

  /** Prune each message of a repeated field, in place. */
  method PruneEach(mask: FieldMask, ghost tree: Tree, ghost p: Place, ghost f: string,
                   messages: seq<HeapMessage>, node: MaskNode, ghost d: set<Path>, ghost ms: seq<Message>)
    requires Stands(mask, node, d) && IsTree(tree, Now(tree))
    requires |messages| == |ms|
    requires forall i :: 0 <= i < |ms| ==> Inner(p, f, i) in tree && tree[Inner(p, f, i)] == messages[i]
    requires FirstPruned(Now(tree), p, f, d, ms, 0) && FitEach(d, ms)
    modifies Within(tree, p, f)
    ensures IsTree(tree, Now(tree)) && SameOutsideField(old(Now(tree)), Now(tree), p, f)
    ensures FirstPruned(Now(tree), p, f, d, ms, |ms|)
    decreases ms, 1
  {
    for k := 0 to |messages|
      invariant IsTree(tree, Now(tree))
      invariant FirstPruned(Now(tree), p, f, d, ms, k)
      invariant SameOutsideField(old(Now(tree)), Now(tree), p, f)
    {
      PruneNext(mask, tree, p, f, messages, node, d, ms, k);
    }
  }

  lemma WholeIsKept(d: set<Path>, v: Value)
    requires [] in d
    ensures FilterValue(d, v) == v
  {
  }

  /** Prune what one allowed field carries, in place: all of it is kept when the
      field's own node allows all, and otherwise each message in it is pruned. */
  method PruneField(mask: FieldMask, ghost tree: Tree, ghost p: Place, ghost f: string,
                    slot: Slot, child: MaskNode, ghost d: set<Path>, ghost v: Value)
    requires Stands(mask, child, d) && IsTree(tree, Now(tree))
    requires forall i: nat :: i < |Kids(slot)| ==> Inner(p, f, i) in tree && tree[Inner(p, f, i)] == Kids(slot)[i]
    requires SlotHolds(Now(tree), p, f, slot, v) && FitsValue(d, v)
    modifies Within(tree, p, f)
    ensures IsTree(tree, Now(tree)) && SameOutsideField(old(Now(tree)), Now(tree), p, f)
    ensures SlotHolds(Now(tree), p, f, slot, FilterValue(d, v))
    decreases v, 2
  {
    StandsBelow(mask, child, d, f);
    if child.all {
      WholeIsKept(d, v);
      return;
    }
    match slot {
      case HMany(messages) =>
        PruneEach(mask, tree, p, f, messages, child, d, v.messages);
      case HSub(message) =>
        assert Kids(slot)[0] == message;
        Prune(mask, tree, message, child, d, v.message);
      case HLeaf(_) =>
        assert false;
    }
  }

  /** What a field carries while these are still to do. */
  ghost function Prunes(d: set<Path>, m: Message, todo: set<string>, f: string): Value
    requires f in m.fields
  {
    if f in todo || Under(d, f) == {} then m.fields[f] else FilterValue(Under(d, f), m.fields[f])
  }

  /** Each field but those still to do is pruned, unless it is to be dropped. */
  ghost predicate PartlyPruned(
      c: Contents, p: Place, fields: map<string, Slot>, d: set<Path>, m: Message, todo: set<string>)
  {
    && fields.Keys == m.fields.Keys
    && forall f :: f in m.fields ==> SlotHolds(c, p, f, fields[f], Prunes(d, m, todo, f))
  }

  lemma OneFieldPruned(c: Contents, e: Contents, p: Place, fields: map<string, Slot>, d: set<Path>, m: Message,
                       todo: set<string>, f: string)
    requires PartlyPruned(c, p, fields, d, m, todo) && f in m.fields
    requires SameOutsideField(c, e, p, f)
    requires SlotHolds(e, p, f, fields[f], Prunes(d, m, {}, f))
    ensures PartlyPruned(e, p, fields, d, m, todo - {f})
  {
    forall g | g in m.fields && g != f
      ensures SlotHolds(e, p, g, fields[g], Prunes(d, m, todo, g))
    {
      SlotHoldsElsewhere(c, e, p, g, fields[g], Prunes(d, m, todo, g));
    }
  }

  /** Once every field is pruned, dropping those nothing allows leaves exactly
      what the filter keeps. */
  lemma DroppingTheRest(c: Contents, e: Contents, p: Place, fields: map<string, Slot>, d: set<Path>, m: Message)
    requires [] !in d && PartlyPruned(c, p, fields, d, m, {})
    requires p in c && c.Keys == e.Keys && forall q :: q in c && q != p ==> c[q] == e[q]
    requires forall f :: f in e[p] <==> f in fields && Under(d, f) != {}
    requires forall f :: f in e[p] ==> e[p][f] == fields[f]
    ensures Holds(e, p, Filter(d, m))
  {
    var kept := Filter(d, m).fields;
    assert e[p].Keys == kept.Keys;
    forall f | f in kept ensures SlotHolds(e, p, f, e[p][f], kept[f]) { KeptField(c, e, p, fields, d, m, f); }
  }

  lemma KeptField(c: Contents, e: Contents, p: Place, fields: map<string, Slot>, d: set<Path>, m: Message, f: string)
    requires PartlyPruned(c, p, fields, d, m, {}) && f in fields && Under(d, f) != {}
    requires p in c && c.Keys == e.Keys && forall q :: q in c && q != p ==> c[q] == e[q]
    ensures SlotHolds(e, p, f, fields[f], FilterValue(Under(d, f), m.fields[f]))
  {
    SlotHoldsElsewhere(c, e, p, f, fields[f], FilterValue(Under(d, f), m.fields[f]));
  }

  /** One populated field: pruned when the node has a child for it, and otherwise
      left to be dropped once every field has been seen. */
  method VisitField(
      mask: FieldMask, ghost tree: Tree, msg: HeapMessage, node: MaskNode, ghost d: set<Path>, ghost m: Message,
      f: string, ghost todo: set<string>)
    returns (disallowed: bool)
    requires Stands(mask, node, d) && [] !in d && IsTree(tree, Now(tree))
    requires msg.at in tree && tree[msg.at] == msg
    requires f in todo && f in msg.fields && Fits(d, m) && PartlyPruned(Now(tree), msg.at, msg.fields, d, m, todo)
    modifies Within(tree, msg.at, f)
    ensures IsTree(tree, Now(tree)) && SameOutsideField(old(Now(tree)), Now(tree), msg.at, f)
    ensures disallowed <==> Under(d, f) == {}
    ensures PartlyPruned(Now(tree), msg.at, old(msg.fields), d, m, todo - {f})
    decreases m, 0
  {
    ghost var before := Now(tree);
    StandsBelow(mask, node, d, f);
    disallowed := f !in node.children;
    if !disallowed {
      PruneField(mask, tree, msg.at, f, msg.fields[f], node.children[f], Under(d, f), m.fields[f]);
    }
    OneFieldPruned(before, Now(tree), msg.at, before[msg.at], d, m, todo, f);
  }

  /** Range over the populated fields: each is visited, and those to drop are
      gathered, because a message is not changed while it is ranged over. */
  method VisitFields(
      mask: FieldMask, ghost tree: Tree, msg: HeapMessage, node: MaskNode, ghost d: set<Path>, ghost m: Message)
    returns (disallowed: set<string>)
    requires Stands(mask, node, d) && [] !in d && IsTree(tree, Now(tree))
    requires msg.at in tree && tree[msg.at] == msg
    requires Holds(Now(tree), msg.at, m) && Fits(d, m)
    modifies Below(tree, msg.at) - {msg}
    ensures IsTree(tree, Now(tree)) && SameOutside(old(Now(tree)), Now(tree), msg.at)
    ensures forall f :: f in disallowed <==> f in msg.fields && Under(d, f) == {}
    ensures PartlyPruned(Now(tree), msg.at, msg.fields, d, m, {})
    decreases m, 1
  {
    disallowed := {};
    var todo := msg.fields.Keys;
    while todo != {}
      invariant todo <= msg.fields.Keys
      invariant IsTree(tree, Now(tree)) && SameOutside(old(Now(tree)), Now(tree), msg.at)
      invariant forall f :: f in disallowed <==> f in msg.fields && f !in todo && Under(d, f) == {}
      invariant PartlyPruned(Now(tree), msg.at, msg.fields, d, m, todo)
    {
      var f :| f in todo;
      var drop := VisitField(mask, tree, msg, node, d, m, f, todo);
      if drop {
        disallowed := disallowed + {f};
      }
      todo := todo - {f};
    }
  }

  /** Clear some fields of a message. */
  method Clear(ghost tree: Tree, msg: HeapMessage, disallowed: set<string>)
    requires IsTree(tree, Now(tree)) && msg.at in tree && tree[msg.at] == msg
    modifies msg`fields
    ensures IsTree(tree, Now(tree))
    ensures Now(tree) == old(Now(tree))[msg.at := old(msg.fields) - disallowed]
  {
    msg.fields := msg.fields - disallowed;
  }

  /** Drop from a message, in place, everything the mask's node does not allow. */
  method Prune(
      mask: FieldMask, ghost tree: Tree, msg: HeapMessage, node: MaskNode, ghost d: set<Path>, ghost m: Message)
    requires Stands(mask, node, d) && IsTree(tree, Now(tree))
    requires msg.at in tree && tree[msg.at] == msg
    requires Holds(Now(tree), msg.at, m) && Fits(d, m)
    modifies Below(tree, msg.at)
    ensures IsTree(tree, Now(tree)) && SameOutside(old(Now(tree)), Now(tree), msg.at)
    ensures Holds(Now(tree), msg.at, Filter(d, m))
    decreases m, 2
  {
    StandsBelow(mask, node, d, "");
    if node.all {
      return;
    }
    var disallowed := VisitFields(mask, tree, msg, node, d, m);
    ghost var before := Now(tree);
    Clear(tree, msg, disallowed);
    DroppingTheRest(before, Now(tree), msg.at, before[msg.at], d, m);
  }

  // --- cloning ---

  /** Two trees with nothing in common are one. */
  lemma JoinedTrees(a: Tree, c: Contents, b: Tree, e: Contents)
    requires IsTree(a, c) && IsTree(b, e) && a.Keys !! b.Keys
    ensures IsTree(a + b, c + e)
  {
  }

  lemma NowJoined(a: Tree, b: Tree)
    ensures Now(a + b) == Now(a) + Now(b)
  {
  }

  /** A tree of copies under one place, holding a value there. */
  ghost predicate Rooted(made: Tree, p: Place, copy: HeapMessage, m: Message)
    reads made.Values
  {
    && IsTree(made, Now(made))
    && (forall q :: q in made ==> p <= q)
    && copy.at == p && p in made && made[p] == copy
    && Holds(Now(made), p, m)
  }

  /** Copies of the first messages of a field, beside each other. */
  ghost predicate ClonedFirst(made: Tree, p: Place, f: string, copies: seq<HeapMessage>, ms: seq<Message>)
    reads made.Values
  {
    && IsTree(made, Now(made))
    && |copies| <= |ms|
    && (forall q :: q in made ==> p < q && q[|p|].0 == f && q[|p|].1 < |copies|)
    && (forall i :: 0 <= i < |copies| ==>
          && Inner(p, f, i) in made && made[Inner(p, f, i)] == copies[i]
          && Holds(Now(made), Inner(p, f, i), ms[i]))
  }

  lemma BeginsWithStep(p: Place, f: string, i: nat, q: Place)
    requires Inner(p, f, i) <= q
    ensures p < q && q[|p|] == (f, i)
  {
  }

  /** One more copy beside those before it. */
  lemma OneMoreCloned(
      made: Tree, p: Place, f: string, copies: seq<HeapMessage>, ms: seq<Message>, more: Tree, copy: HeapMessage)
    requires ClonedFirst(made, p, f, copies, ms) && |copies| < |ms|
    requires Rooted(more, Inner(p, f, |copies|), copy, ms[|copies|])
    ensures ClonedFirst(made + more, p, f, copies + [copy], ms)
  {
    var k := |copies|;
    forall q | q in more ensures p < q && q[|p|] == (f, k) { BeginsWithStep(p, f, k, q); }
    NowJoined(made, more);
    JoinedTrees(made, Now(made), more, Now(more));
    forall i | 0 <= i <= k ensures Holds(Now(made + more), Inner(p, f, i), ms[i]) {
      HoldsElsewhere(if i < k then Now(made) else Now(more), Now(made + more), Inner(p, f, i), ms[i]);
    }
  }

  ghost predicate ToClone(tree: Tree, p: Place, f: string, messages: seq<HeapMessage>, ms: seq<Message>)
    reads tree.Values
  {
    && IsTree(tree, Now(tree)) && |messages| == |ms|
    && (forall i :: 0 <= i < |ms| ==> Inner(p, f, i) in tree && tree[Inner(p, f, i)] == messages[i])
    && (forall i :: 0 <= i < |ms| ==> Holds(Now(tree), Inner(p, f, i), ms[i]))
  }

  method CloneNext(
      ghost tree: Tree, ghost p: Place, ghost f: string, messages: seq<HeapMessage>, ghost ms: seq<Message>, k: nat,
      copies: seq<HeapMessage>, ghost made: Tree)
    returns (next: seq<HeapMessage>, ghost more: Tree)
    requires ToClone(tree, p, f, messages, ms) && k < |messages|
    requires ClonedFirst(made, p, f, copies, ms) && |copies| == k
    ensures ClonedFirst(made + more, p, f, next, ms) && |next| == k + 1
    ensures forall q :: q in more ==> fresh(more[q])
    decreases ms, 1, 0
  {
    assert tree[Inner(p, f, k)] == messages[k] && Holds(Now(tree), Inner(p, f, k), ms[k]);
    var copy;
    copy, more := Clone(tree, messages[k], ms[k]);
    OneMoreCloned(made, p, f, copies, ms, more, copy);
    next := copies + [copy];
  }

  method CloneEach(
      ghost tree: Tree, ghost p: Place, ghost f: string, messages: seq<HeapMessage>, ghost ms: seq<Message>)
    returns (copies: seq<HeapMessage>, ghost made: Tree)
    requires ToClone(tree, p, f, messages, ms)
    ensures forall q :: q in made ==> fresh(made[q])
    ensures ClonedFirst(made, p, f, copies, ms) && |copies| == |ms|
    decreases ms, 1
  {
    copies, made := [], map[];
    for k := 0 to |messages|
      invariant ToClone(tree, p, f, messages, ms)
      invariant forall q :: q in made ==> fresh(made[q])
      invariant ClonedFirst(made, p, f, copies, ms) && |copies| == k
    {
      ghost var more;
      copies, more := CloneNext(tree, p, f, messages, ms, k, copies, made);
      made := made + more;
    }
  }

  /** A copy of what one field carries. */
  ghost predicate ClonedSlot(made: Tree, p: Place, f: string, copy: Slot, v: Value)
    reads made.Values
  {
    && IsTree(made, Now(made))
    && (forall q :: q in made ==> p < q && q[|p|].0 == f)
    && (forall i: nat :: i < |Kids(copy)| ==> Inner(p, f, i) in made && made[Inner(p, f, i)] == Kids(copy)[i])
    && SlotHolds(Now(made), p, f, copy, v)
  }

  method CloneField(ghost tree: Tree, ghost p: Place, ghost f: string, slot: Slot, ghost v: Value)
    returns (copy: Slot, ghost made: Tree)
    requires IsTree(tree, Now(tree)) && SlotHolds(Now(tree), p, f, slot, v)
    requires forall i: nat :: i < |Kids(slot)| ==> Inner(p, f, i) in tree && tree[Inner(p, f, i)] == Kids(slot)[i]
    ensures forall q :: q in made ==> fresh(made[q])
    ensures ClonedSlot(made, p, f, copy, v)
    decreases v, 0
  {
    match slot {
      case HLeaf(repr) =>
        copy, made := HLeaf(repr), map[];
      case HSub(message) =>
        assert Kids(slot)[0] == message;
        var one, more := Clone(tree, message, v.message);
        copy, made := HSub(one), more;
        forall q | q in made ensures p < q && q[|p|] == (f, 0) { BeginsWithStep(p, f, 0, q); }
      case HMany(messages) =>
        var many, more := CloneEach(tree, p, f, messages, v.messages);
        copy, made := HMany(many), more;
    }
  }

  /** Copies of some of a message's fields, beside each other. */
  ghost predicate ClonedFields(made: Tree, p: Place, fields: map<string, Slot>, m: Message)
    reads made.Values
  {
    && fields.Keys <= m.fields.Keys
    && IsTree(made, Now(made))
    && (forall q :: q in made ==> p < q && q[|p|].0 in fields)
    && (forall f :: f in fields ==> ClonedField(made, p, f, fields[f], m.fields[f]))
  }

  ghost predicate ClonedField(made: Tree, p: Place, f: string, copy: Slot, v: Value)
    reads made.Values
  {
    && (forall i: nat :: i < |Kids(copy)| ==> Inner(p, f, i) in made && made[Inner(p, f, i)] == Kids(copy)[i])
    && SlotHolds(Now(made), p, f, copy, v)
  }

  lemma ClonedFieldIn(made: Tree, bigger: Tree, p: Place, f: string, copy: Slot, v: Value)
    requires ClonedField(made, p, f, copy, v)
    requires forall q :: q in made ==> q in bigger && bigger[q] == made[q]
    ensures ClonedField(bigger, p, f, copy, v)
  {
    SlotHoldsElsewhere(Now(made), Now(bigger), p, f, copy, v);
  }

  lemma OneFieldCloned(made: Tree, more: Tree, p: Place, fields: map<string, Slot>, m: Message, f: string, copy: Slot)
    requires ClonedFields(made, p, fields, m) && f in m.fields && f !in fields
    requires ClonedSlot(more, p, f, copy, m.fields[f])
    ensures ClonedFields(made + more, p, fields[f := copy], m)
  {
    assert made.Keys !! more.Keys;
    NowJoined(made, more);
    JoinedTrees(made, Now(made), more, Now(more));
    forall g | g in fields[f := copy] ensures ClonedField(made + more, p, g, fields[f := copy][g], m.fields[g]) {
      ClonedFieldIn(if g == f then more else made, made + more, p, g, fields[f := copy][g], m.fields[g]);
    }
  }

  lemma WholeCloned(inside: Tree, made: Tree, p: Place, fields: map<string, Slot>, m: Message, copy: HeapMessage)
    requires ClonedFields(inside, p, fields, m) && fields.Keys == m.fields.Keys
    requires copy.at == p && copy.fields == fields && made == inside[p := copy]
    ensures Rooted(made, p, copy, m)
  {
    forall f | f in m.fields ensures SlotHolds(Now(made), p, f, Now(made)[p][f], m.fields[f]) {
      assert ClonedField(inside, p, f, fields[f], m.fields[f]);
      SlotHoldsElsewhere(Now(inside), Now(made), p, f, fields[f], m.fields[f]);
    }
    assert IsTree(made, Now(made)) by {
      forall q, f, i: nat | q in made && f in made[q].fields && i < |Kids(made[q].fields[f])|
        ensures Inner(q, f, i) in made && made[Inner(q, f, i)] == Kids(made[q].fields[f])[i]
      {
        if q == p { assert ClonedField(inside, p, f, fields[f], m.fields[f]); }
      }
    }
  }

  /** One more field of a message, copied. */
  method CloneOne(
      ghost tree: Tree, msg: HeapMessage, ghost m: Message, f: string, fields: map<string, Slot>, ghost inside: Tree)
    returns (next: map<string, Slot>, ghost more: Tree)
    requires IsTree(tree, Now(tree)) && msg.at in tree && tree[msg.at] == msg && Holds(Now(tree), msg.at, m)
    requires f in msg.fields && f !in fields && ClonedFields(inside, msg.at, fields, m)
    ensures next.Keys == fields.Keys + {f} && ClonedFields(inside + more, msg.at, next, m)
    ensures forall q :: q in more ==> fresh(more[q])
    decreases m, 0, 0
  {
    var slot;
    slot, more := CloneField(tree, msg.at, f, msg.fields[f], m.fields[f]);
    OneFieldCloned(inside, more, msg.at, fields, m, f, slot);
    next := fields[f := slot];
  }

  /** A fresh message, and everything inside it, holding the same value. */
  method Clone(ghost tree: Tree, msg: HeapMessage, ghost m: Message) returns (copy: HeapMessage, ghost made: Tree)
    requires IsTree(tree, Now(tree)) && msg.at in tree && tree[msg.at] == msg
    requires Holds(Now(tree), msg.at, m)
    ensures forall q :: q in made ==> fresh(made[q])
    ensures Rooted(made, msg.at, copy, m)
    decreases m, 0
  {
    var fields: map<string, Slot> := map[];
    ghost var inside: Tree := map[];
    var todo := msg.fields.Keys;
    while todo != {}
      invariant todo <= msg.fields.Keys && fields.Keys == msg.fields.Keys - todo
      invariant forall q :: q in inside ==> fresh(inside[q])
      invariant ClonedFields(inside, msg.at, fields, m)
    {
      var f :| f in todo;
      ghost var more;
      fields, more := CloneOne(tree, msg, m, f, fields, inside);
      inside, todo := inside + more, todo - {f};
    }
    copy := new HeapMessage(msg.at, fields);
    made := inside[msg.at := copy];
    WholeCloned(inside, made, msg.at, fields, m, copy);
  }

  // --- applying a mask ---

  /** A message of a declared type: every field is one the type has, and carries
      messages exactly where its shape says so. */
  predicate WellTyped(g: Schema, t: string, m: Message)
    decreases m
  {
    t in g && forall f :: f in m.fields ==> f in g[t] && ValueTyped(g, g[t][f], m.fields[f])
  }

  predicate ValueTyped(g: Schema, shape: FieldShape, v: Value)
    decreases v
  {
    match v
    case Leaf(_) => shape.Plain? || shape.MapField?
    case Sub(m) => (shape.MessageField? || shape.GroupField?) && !shape.repeated && WellTyped(g, shape.of, m)
    case Many(ms) =>
      && (shape.MessageField? || shape.GroupField?) && shape.repeated
      && forall i :: 0 <= i < |ms| ==> WellTyped(g, shape.of, ms[i])
  }

  /** Each declared path is used up, or goes on as its type accepts. */
  ghost predicate AcceptedFrom(g: Schema, t: string, d: set<Path>)
    requires t in g && WellFormed(g)
  {
    forall p :: p in d ==> p == [] || Accepts(g, t, p)
  }

  /** A mask its type accepted never goes into a scalar, a map or a group. */
  lemma {:induction false} AcceptedMasksFit(g: Schema, t: string, d: set<Path>, m: Message)
    requires t in g && WellFormed(g) && AcceptedFrom(g, t, d) && WellTyped(g, t, m)
    ensures Fits(d, m)
    decreases m
  {
    if [] !in d {
      forall f | f in m.fields && Under(d, f) != {} ensures FitsValue(Under(d, f), m.fields[f]) {
        AcceptedUnder(g, t, d, f);
        match m.fields[f] {
          case Leaf(_) =>
            var q :| q in Under(d, f);
          case Sub(x) =>
            if [] !in Under(d, f) { AcceptedMasksFit(g, g[t][f].of, Under(d, f), x); }
          case Many(xs) =>
            if [] !in Under(d, f) {
              forall i | 0 <= i < |xs|
                ensures Fits(Under(d, f), xs[i])
              {
                AcceptedMasksFit(g, g[t][f].of, Under(d, f), xs[i]);
              }
            }
        }
      }
    }
  }

  /** Under a field, a path is used up, or the field is a message and the path
      goes on as that message's type accepts. */
  lemma AcceptedUnder(g: Schema, t: string, d: set<Path>, f: string)
    requires t in g && WellFormed(g) && AcceptedFrom(g, t, d)
    ensures forall q :: q in Under(d, f) ==>
              f in g[t] && (q == [] || (g[t][f].MessageField? && g[t][f].of in g && Accepts(g, g[t][f].of, q)))
  {
  }

  // --- what a mask can be declared to show ---

  /** Some name but the last is a group, reached through messages. */
  predicate ThroughAGroup(g: Schema, t: string, names: Path)
    requires t in g && WellFormed(g)
    decreases |names|
  {
    && |names| > 1 && names[0] in g[t]
    && match g[t][names[0]]
       case GroupField(_, _) => true
       case MessageField(of, _) => ThroughAGroup(g, of, names[1..])
       case _ => false
  }

  /** Whatever a message shows can be declared, through lists and all, exactly
      when no group is on the way to it. */
  lemma {:induction false} ShownIsAccepted(g: Schema, t: string, m: Message, steps: seq<Step>, last: string)
    requires t in g && WellFormed(g) && WellTyped(g, t, m) && See(m, steps, last) != Absent
    ensures Printable(PathOf(steps, last))
    ensures Accepts(g, t, PathOf(steps, last)) <==> !ThroughAGroup(g, t, PathOf(steps, last))
    decreases |steps|
  {
    if steps != [] {
      var f := steps[0].0;
      assert ValueTyped(g, g[t][f], m.fields[f]);
      var inner := Inside(m, f, steps[0].1);
      ShownIsAccepted(g, g[t][f].of, inner, steps[1..], last);
      assert PathOf(steps, last)[1..] == PathOf(steps[1..], last);
    }
  }

  /** So the path to anything a page could be shown is one a mask can be built of. */
  method DeclareWhatIsShown(g: Schema, t: string, ghost m: Message, ghost steps: seq<Step>, ghost last: string,
                            path: string)
    returns (r: Result<FieldMask, MaskError>)
    requires t in g && WellFormed(g) && WellTyped(g, t, m) && See(m, steps, last) != Absent
    requires path == Join(PathOf(steps, last))
    ensures r.Ok? <==> !ThroughAGroup(g, t, PathOf(steps, last))
    ensures r.Ok? ==> r.value.Valid() && See(Filter(r.value.Declared(), m), steps, last) == See(m, steps, last)
  {
    ShownIsAccepted(g, t, m, steps, last);
    SplitOfJoin(PathOf(steps, last));
    r := NewFieldMask(g, t, [path]);
    if r.Ok? {
      assert PathOf(steps, last) in r.value.Declared();
      assert Passes(r.value.Declared(), PathOf(steps, last));
      FilterIsExact(r.value.Declared(), m, steps, last);
    }
  }

  lemma RootStands(mask: FieldMask)
    requires mask.Valid() && mask.Tight()
    ensures Stands(mask, mask.root, mask.Declared())
  {
    assert From(mask.Declared(), []) == mask.Declared() by {
      assert forall q: Path :: [] + q == q;
    }
  }

  /** Prune a copy from the mask's root. */
  method PruneCopy(mask: FieldMask, ghost made: Tree, copy: HeapMessage, ghost m: Message)
    requires mask.Valid() && mask.Tight() && Fits(mask.Declared(), m)
    requires Rooted(made, copy.at, copy, m)
    modifies made.Values
    ensures Rooted(made, copy.at, copy, Filter(mask.Declared(), m))
  {
    RootStands(mask);
    Prune(mask, made, copy, mask.root, mask.Declared(), m);
  }

  method CloneAndPrune(mask: FieldMask, ghost tree: Tree, msg: HeapMessage, ghost m: Message)
    returns (out: HeapMessage, ghost made: Tree)
    requires mask.Valid() && mask.Tight() && Fits(mask.Declared(), m) && Rooted(tree, msg.at, msg, m)
    ensures forall q :: q in made ==> fresh(made[q])
    ensures Rooted(made, msg.at, out, Filter(mask.Declared(), m))
  {
    out, made := Clone(tree, msg, m);
    assert forall copy :: copy in made.Values ==> fresh(copy);
    PruneCopy(mask, made, out, m);
  }

  /** A copy of a message carrying only what the mask allows. What was there
      before is not changed: nothing is, but what is fresh. */
  method Apply(g: Schema, mask: FieldMask, ghost tree: Tree, msg: HeapMessage, ghost m: Message)
    returns (out: HeapMessage, ghost made: Tree)
    requires mask.Valid() && mask.Tight() && mask.desc in g && WellFormed(g)
    requires AcceptedFrom(g, mask.desc, mask.Declared()) && WellTyped(g, mask.desc, m)
    requires Rooted(tree, msg.at, msg, m)
    ensures forall q :: q in made ==> fresh(made[q])
    ensures Rooted(made, msg.at, out, Filter(mask.Declared(), m))
  {
    AcceptedMasksFit(g, mask.desc, mask.Declared(), m);
    out, made := CloneAndPrune(mask, tree, msg, m);
  }

  lemma AllAccepted(g: Schema, t: string, paths: seq<string>)
    requires t in g && WellFormed(g) && AcceptedUpTo(g, t, paths, |paths|)
    ensures AcceptedFrom(g, t, SplitAll(paths))
  {
    forall p | p in SplitAll(paths) ensures Accepts(g, t, p) {
      var path :| path in paths && Split(path) == p;
      var j :| 0 <= j < |paths| && paths[j] == path;
      assert Accepts(g, t, Split(paths[j]));
    }
  }

  /** From dotted paths to the message a page may have: refused where the mask is,
      and otherwise a fresh message carrying exactly what the paths allow. */
  method ApplyPaths(g: Schema, t: string, paths: seq<string>, ghost tree: Tree, msg: HeapMessage, ghost m: Message)
    returns (r: Result<HeapMessage, MaskError>, ghost made: Tree)
    requires t in g && WellFormed(g) && WellTyped(g, t, m) && Rooted(tree, msg.at, msg, m)
    ensures r.Ok? <==> AcceptedUpTo(g, t, paths, |paths|)
    ensures r.Ok? ==>
              (forall q :: q in made ==> fresh(made[q])) && Rooted(made, msg.at, r.value, Filter(SplitAll(paths), m))
    ensures r.Err? ==> RefusesFirst(g, t, paths, r.error)
  {
    var mask := NewFieldMask(g, t, paths);
    if mask.Err? {
      return Err(mask.error), map[];
    }
    AllAccepted(g, t, paths);
    var out;
    out, made := Apply(g, mask.value, tree, msg, m);
    r := Ok(out);
  }
}
