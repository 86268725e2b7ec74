/** A declared response allowlist, as the trie it is built into and printed from. */
module FieldMasks {
  import opened Wrappers
  import opened Text
  import opened MaskLaws

  /** What a descriptor says of a field. */
  datatype FieldShape =
    | Plain
    | MapField
    | GroupField(of: string, repeated: bool)
    | MessageField(of: string, repeated: bool)

  /** Message types by full name, each with its fields by name; types may refer
      to each other, and to themselves. */
  type Schema = map<string, map<string, FieldShape>>

  /** Field names are protobuf identifiers, and every type named is there. */
  ghost predicate WellFormed(g: Schema) {
    forall t, f :: t in g && f in g[t] ==>
      && f != "" && '.' !in f
      && (g[t][f].MessageField? || g[t][f].GroupField? ==> g[t][f].of in g)
  }

  /** A path names fields that exist, each but the last a message. */
  predicate Accepts(g: Schema, t: string, names: Path)
    requires t in g && WellFormed(g)
    decreases |names|
  {
    && names != [] && names[0] in g[t]
    && (|names| == 1 || (g[t][names[0]].MessageField? && Accepts(g, g[t][names[0]].of, names[1..])))
  }

  datatype MaskError =
    | UnknownField(path: string, name: string)
    | NotAMessage(path: string, name: string)

  /** Each name is a message field, repeated or not, of the type it is looked up
      in, and leads to the next type. */
  ghost predicate Leads(g: Schema, names: Path, types: seq<string>) {
    && |types| == |names| + 1
    && (forall i :: 0 <= i < |types| ==> types[i] in g)
    && (forall i :: 0 <= i < |names| ==>
          && names[i] in g[types[i]]
          && (g[types[i]][names[i]] == MessageField(types[i + 1], false)
              || g[types[i]][names[i]] == MessageField(types[i + 1], true)))
  }

  /** The first k names lead from the type t to the type u. */
  ghost predicate LeadsTo(g: Schema, t: string, names: Path, k: nat, u: string) {
    k <= |names| && exists types :: Leads(g, names[..k], types) && types[0] == t && types[k] == u
  }

  lemma LeadsFromFront(g: Schema, t: string, names: Path, k: nat, u: string)
    requires t in g && names != [] && names[0] in g[t] && g[t][names[0]].MessageField?
    requires LeadsTo(g, g[t][names[0]].of, names[1..], k, u)
    ensures LeadsTo(g, t, names, k + 1, u)
  {
    var shape := g[t][names[0]];
    var types :| Leads(g, names[1..][..k], types) && types[0] == shape.of && types[k] == u;
    var all := [t] + types;
    assert shape == MessageField(all[1], shape.repeated);
    forall i | 0 <= i < k + 1
      ensures names[..k + 1][i] in g[all[i]]
      ensures g[all[i]][names[..k + 1][i]] == MessageField(all[i + 1], false)
              || g[all[i]][names[..k + 1][i]] == MessageField(all[i + 1], true)
    {
      if i > 0 { assert names[1..][..k][i - 1] == names[i]; }
    }
    assert Leads(g, names[..k + 1], all);
  }

  /** The field a path names: all names but the last lead to its type. */
  ghost predicate NamesField(g: Schema, t: string, names: Path) {
    names != [] && exists u :: LeadsTo(g, t, names, |names| - 1, u) && names[|names| - 1] in g[u]
  }

  /** A refusal is about the first name that is not a field where the names before
      it lead, or that is one and no message and is not the last. */
  ghost predicate Refuses(g: Schema, t: string, names: Path, e: MaskError) {
    exists k: nat, u :: RefusesAt(g, t, names, e, k, u)
  }

  ghost predicate RefusesAt(g: Schema, t: string, names: Path, e: MaskError, k: nat, u: string) {
    && k < |names| && LeadsTo(g, t, names, k, u) && e.name == names[k] && u in g
    && match e
       case UnknownField(_, name) => name !in g[u]
       case NotAMessage(_, name) => k < |names| - 1 && name in g[u] && !g[u][name].MessageField?
  }

  /** What is wrong with a path, at the first name where something is. */
  function Fault(g: Schema, t: string, path: string, names: Path): Option<MaskError>
    requires t in g && WellFormed(g) && names != []
    decreases |names|
  {
    if names[0] !in g[t] then Some(UnknownField(path, names[0]))
    else if |names| == 1 then None
    else if !g[t][names[0]].MessageField? then Some(NotAMessage(path, names[0]))
    else Fault(g, g[t][names[0]].of, path, names[1..])
  }

  /** What it says is so, of that path, and a path is accepted when it says nothing. */
  lemma {:induction false} FaultIsTrue(g: Schema, t: string, path: string, names: Path)
    requires t in g && WellFormed(g) && names != []
    ensures Fault(g, t, path, names) == None <==> Accepts(g, t, names)
    ensures Fault(g, t, path, names) == None ==> NamesField(g, t, names)
    ensures Fault(g, t, path, names).Some? ==>
              && Fault(g, t, path, names).value.path == path
              && Refuses(g, t, names, Fault(g, t, path, names).value)
    decreases |names|
  {
    assert Leads(g, names[..0], [t]);
    var fault := Fault(g, t, path, names);
    if |names| > 1 && names[0] in g[t] && g[t][names[0]].MessageField? {
      var of, rest := g[t][names[0]].of, names[1..];
      FaultIsTrue(g, of, path, rest);
      if fault == None {
        var u :| LeadsTo(g, of, rest, |rest| - 1, u) && rest[|rest| - 1] in g[u];
        LeadsFromFront(g, t, names, |rest| - 1, u);
      } else {
        var k: nat, u :| RefusesAt(g, of, rest, fault.value, k, u);
        LeadsFromFront(g, t, names, k, u);
        assert RefusesAt(g, t, names, fault.value, k + 1, u);
      }
    } else if fault == None {
      assert LeadsTo(g, t, names, 0, t);
    } else {
      assert RefusesAt(g, t, names, fault.value, 0, t);
    }
  }

  lemma {:induction false} AcceptsAtEnd(g: Schema, names: Path, types: seq<string>)
    requires WellFormed(g) && names != [] && Leads(g, names[..|names| - 1], types)
    requires names[|names| - 1] in g[types[|names| - 1]]
    ensures Accepts(g, types[0], names)
    decreases |names|
  {
    if |names| > 1 {
      var front := names[..|names| - 1];
      assert front[0] == names[0];
      assert front[1..] == names[1..][..|names[1..]| - 1];
      assert Leads(g, front[1..], types[1..]);
      AcceptsAtEnd(g, names[1..], types[1..]);
    }
  }

  /** A path is accepted exactly when it names a field: each name but its last is
      a message field of its type, repeated or not, and leads to the next type, and
      the last is any field of the last. */
  lemma AcceptsIff(g: Schema, t: string, names: Path)
    requires t in g && WellFormed(g)
    ensures Accepts(g, t, names) <==> NamesField(g, t, names)
  {
    if names != [] { FaultIsTrue(g, t, "", names); }
    if NamesField(g, t, names) {
      var u :| LeadsTo(g, t, names, |names| - 1, u) && names[|names| - 1] in g[u];
      var types :| Leads(g, names[..|names| - 1], types) && types[0] == t && types[|names| - 1] == u;
      AcceptsAtEnd(g, names, types);
    }
  }

  /** The path one name further. */
  function Further(p: Path, name: string): (r: Path)
    ensures |r| == |p| + 1 && r[..|p|] == p && r[|p|] == name
  {
    p + [name]
  }

  lemma FurtherIsInjective(p: Path, name: string, q: Path, other: string)
    requires Further(p, name) == Further(q, other)
    ensures p == q && name == other
  {
  }

  /** Marks a path the question below is asked of. */
  ghost predicate AskedOf(p: Path) { true }

  /** Every path but the empty one leads to a declared one. */
  ghost predicate TightOver(paths: set<Path>, declared: set<Path>) {
    forall p {:trigger AskedOf(p)} :: AskedOf(p) && p in paths && p != [] ==> exists d :: d in declared && p <= d
  }

  function Prefixes(names: Path): set<Path> {
    set i | 0 <= i <= |names| :: names[..i]
  }

  lemma TightGrows(paths: set<Path>, declared: set<Path>, more: set<Path>, names: Path)
    requires TightOver(paths, declared) && more <= paths + Prefixes(names)
    ensures TightOver(more, declared + {names})
  {
  }

  lemma BelowFurther(d: Path, p: Path, name: string)
    ensures d < Further(p, name) <==> d <= p
  {
  }

  class MaskNode {
    /** The names that lead here. */
    ghost const at: Path
    var all: bool
    var children: map<string, MaskNode>

    constructor (ghost at: Path)
      ensures !all && children == map[] && this.at == at
    {
      this.at := at;
      all, children := false, map[];
    }
  }

  class FieldMask {
    const desc: string
    const root: MaskNode
    /** Every node, by the names that lead to it. */
    ghost var nodes: map<Path, MaskNode>
    ghost var Repr: set<MaskNode>

    /** A node is a parent's child exactly when it is a node, one name further. */
    ghost predicate Valid()
      reads this, Repr
    {
      && [] in nodes && nodes[[]] == root
      && (forall p :: p in nodes ==> nodes[p] in Repr && nodes[p].at == p)
      && (forall p, f :: p in nodes && f in nodes[p].children ==>
            Further(p, f) in nodes && nodes[Further(p, f)] == nodes[p].children[f])
      && (forall p, f :: Further(p, f) in nodes ==> p in nodes && f in nodes[p].children)
    }

    /** Nothing is there but on the way to a declared path. */
    ghost predicate Tight()
      requires Valid()
      reads this, Repr
    {
      TightOver(nodes.Keys, Declared())
    }

    lemma OnTheWay(p: Path) returns (d: Path)
      requires Valid() && Tight() && p in nodes && p != []
      ensures d in Declared() && p <= d
    {
      assert AskedOf(p);
      d :| d in Declared() && p <= d;
    }

    /** The declared paths: those whose node allows everything under it. */
    ghost function Declared(): set<Path>
      requires Valid()
      reads this, Repr
    {
      set p | p in nodes && nodes[p].all
    }

    constructor (desc: string)
      ensures Valid() && Tight() && this.desc == desc
      ensures Declared() == {} && fresh(Repr)
    {
      this.desc := desc;
      var node := new MaskNode([]);
      root := node;
      nodes, Repr := map[[] := node], {node};
    }

    /** The child of a node for a name, made when it is not there yet. */
    method Child(node: MaskNode, name: string) returns (child: MaskNode)
      requires Valid() && node.at in nodes && nodes[node.at] == node
      modifies this`nodes, this`Repr, node`children
      ensures Valid() && fresh(Repr - old(Repr)) && old(Repr) <= Repr
      ensures Declared() == old(Declared())
      ensures child.at == Further(node.at, name) && child.at in nodes && nodes[child.at] == child
      ensures nodes.Keys == old(nodes.Keys) + {child.at}
    {
      if name in node.children {
        child := node.children[name];
      } else {
        child := new MaskNode(Further(node.at, name));
        node.children := node.children[name := child];
        nodes := nodes[Further(node.at, name) := child];
        Repr := Repr + {child};
        forall q, f | Further(q, f) in nodes ensures q in nodes && f in nodes[q].children {
          if Further(q, f) == Further(node.at, name) { FurtherIsInjective(q, f, node.at, name); }
        }
        forall q, f | q in nodes && f in nodes[q].children
          ensures Further(q, f) in nodes && nodes[Further(q, f)] == nodes[q].children[f]
        {
          if Further(q, f) == Further(node.at, name) { FurtherIsInjective(q, f, node.at, name); }
        }
      }
    }

    method Allow(node: MaskNode)
      requires Valid() && node.at in nodes && nodes[node.at] == node
      modifies node`all
      ensures Valid() && Declared() == old(Declared()) + {node.at}
    {
      node.all := true;
    }

    /** One declared path: its nodes are made where they are missing, and the
        last allows everything. */
    method Declare(g: Schema, path: string) returns (error: Option<MaskError>)
      requires Valid() && desc in g && WellFormed(g)
      modifies this`nodes, this`Repr, Repr
      ensures Valid() && fresh(Repr - old(Repr)) && old(Repr) <= Repr
      ensures error == Fault(g, desc, path, Split(path))
      ensures error == None ==> Declared() == old(Declared()) + {Split(path)}
      ensures nodes.Keys <= old(nodes.Keys) + Prefixes(Split(path))
    {
      var names := Split(path);
      var node, current, i := root, desc, 0;
      while true
        invariant i < |names|
        invariant Valid() && fresh(Repr - old(Repr)) && old(Repr) <= Repr
        invariant node.at == names[..i] && node.at in nodes && nodes[node.at] == node
        invariant current in g
        invariant Fault(g, desc, path, names) == Fault(g, current, path, names[i..])
        invariant Declared() == old(Declared())
        invariant nodes.Keys <= old(nodes.Keys) + Prefixes(names)
        decreases |names| - i
      {
        var name := names[i];
        assert names[i..][0] == name && names[i..][1..] == names[i + 1..];
        if name !in g[current] {
          return Some(UnknownField(path, name));
        }
        assert names[..i + 1] == Further(names[..i], name);
        node := Child(node, name);
        if i == |names| - 1 {
          assert names[..i + 1] == names;
          Allow(node);
          return None;
        }
        if !g[current][name].MessageField? {
          return Some(NotAMessage(path, name));
        }
        current, i := g[current][name].of, i + 1;
      }
    }

    /** The declared paths at or under a node that none before them allows. */
    ghost function Leaves(p: Path): set<Path>
      requires Valid()
      reads this, Repr
    {
      set d | d in Minimal(Declared()) && p <= d
    }

    ghost function Reach(p: Path): set<Path>
      reads this
    {
      set q | q in nodes && p <= q
    }

    lemma ReachShrinks(p: Path, name: string)
      requires p in nodes
      ensures |Reach(Further(p, name))| < |Reach(p)|
    {
      assert p in Reach(p) && p !in Reach(Further(p, name));
      assert Reach(Further(p, name)) <= Reach(p) - {p};
      SubsetIsNoLarger(Reach(Further(p, name)), Reach(p) - {p});
    }

    /** A node on the way to a path is a node, down to that path's first step. */
    lemma {:induction false} PrefixIsNode(p: Path, q: Path)
      requires Valid() && p <= q && q in nodes
      ensures p in nodes
      decreases |q|
    {
      if p != q {
        assert q == Further(q[..|q| - 1], q[|q| - 1]);
        PrefixIsNode(p, q[..|q| - 1]);
      }
    }

    /** Below a node that allows nothing itself, every declared path goes on
        through one of its children. */
    lemma GoesThroughAChild(p: Path, d: Path)
      requires Valid() && p in nodes && p < d && d in nodes
      ensures d[|p|] in nodes[p].children && Further(p, d[|p|]) <= d
    {
      var next := Further(p, d[|p|]);
      assert next == d[..|p| + 1];
      PrefixIsNode(next, d);
    }

    /** The printed prefix is empty only at the root. */
    lemma PrefixIsPrinted(p: Path, name: string)
      requires Valid() && p in nodes && Named()
      ensures Join(Further(p, name)) == if Join(p) == "" then name else Join(p) + "." + name
    {
      JoinFurther(p, name);
      if p != [] {
        var q, f := p[..|p| - 1], p[|p| - 1];
        assert p == Further(q, f);
        JoinFurther(q, f);
      }
    }

    /** The leaves of a node that go through one of some of its children. */
    ghost function Through(p: Path, names: set<string>): set<Path>
      requires Valid()
      reads this, Repr
    {
      set d | d in Leaves(p) && |d| > |p| && d[|p|] in names
    }

    lemma AllowedIsItsOnlyLeaf(p: Path)
      requires Valid() && p in Declared() && forall d :: d in Declared() ==> !(d < p)
      ensures Leaves(p) == {p}
    {
      forall d | d in Leaves(p) ensures d == p {
        assert !(p < d);
      }
      assert p in Minimal(Declared());
    }

    lemma LeavesGoThroughChildren(p: Path)
      requires Valid() && p in nodes && !nodes[p].all
      ensures Leaves(p) == Through(p, nodes[p].children.Keys)
      ensures Through(p, {}) == {}
    {
      forall d | d in Leaves(p) ensures d in Through(p, nodes[p].children.Keys) {
        assert d != p;
        GoesThroughAChild(p, d);
      }
    }

    lemma OneMoreChild(p: Path, done: set<string>, name: string)
      requires Valid() && p in nodes
      ensures Through(p, done + {name}) == Through(p, done) + Leaves(Further(p, name))
      ensures name !in done ==> Through(p, done) !! Leaves(Further(p, name))
    {
    }

    /** No declared path ends strictly above a child of a node that allows
        nothing itself and lies under none that does. */
    lemma NothingAboveAChild(p: Path, name: string)
      requires Valid() && p in nodes && !nodes[p].all && forall d :: d in Declared() ==> !(d < p)
      ensures forall d :: d in Declared() ==> !(d < Further(p, name))
    {
      forall d | d in Declared() ensures !(d < Further(p, name)) {
        BelowFurther(d, p, name);
        assert d != p;
      }
    }

    /** Nothing above a node allows it already. */
    ghost predicate Unallowed(p: Path)
      requires Valid()
      reads this, Repr
    {
      && (forall d :: d in Declared() ==> !(d < p))
      && Named()
    }

    ghost predicate Named()
      reads this
    {
      forall p :: p in nodes ==> "" !in p
    }

    /** Each allowed path under a node, as declared, in no particular order. */
    method Walk(prefix: string, node: MaskNode) returns (out: seq<string>, ghost ps: seq<Path>)
      requires Valid() && node.at in nodes && nodes[node.at] == node
      requires prefix == Join(node.at) && Unallowed(node.at)
      ensures Prints(out, ps, Leaves(node.at))
      decreases |Reach(node.at)|, 1
    {
      if node.all {
        AllowedIsItsOnlyLeaf(node.at);
        return [prefix], [node.at];
      }
      LeavesGoThroughChildren(node.at);
      out, ps := [], [];
      var todo := node.children.Keys;
      ghost var done: set<string> := {};
      while todo != {}
        invariant todo <= node.children.Keys && done == node.children.Keys - todo
        invariant Prints(out, ps, Through(node.at, done))
      {
        var name :| name in todo;
        var more, qs := WalkChild(prefix, node, name);
        OneMoreChild(node.at, done, name);
        PrintsAppend(out, ps, Through(node.at, done), more, qs, Leaves(Further(node.at, name)));
        done := done + {name};
        out, ps, todo := out + more, ps + qs, todo - {name};
      }
    }

    method WalkChild(prefix: string, node: MaskNode, name: string) returns (out: seq<string>, ghost ps: seq<Path>)
      requires Valid() && node.at in nodes && nodes[node.at] == node && name in node.children && !node.all
      requires prefix == Join(node.at) && Unallowed(node.at)
      ensures Prints(out, ps, Leaves(Further(node.at, name)))
      decreases |Reach(node.at)|, 0
    {
      var child := node.children[name];
      assert child.at == Further(node.at, name);
      var path := name;
      if prefix != "" {
        path := prefix + "." + path;
      }
      PrefixIsPrinted(node.at, name);
      ReachShrinks(node.at, name);
      NothingAboveAChild(node.at, name);
      out, ps := Walk(path, child);
    }
  }

  /** The strings are the printed paths of a set, each once. */
  ghost predicate Prints(out: seq<string>, ps: seq<Path>, paths: set<Path>) {
    && |out| == |ps|
    && (forall i :: 0 <= i < |ps| ==> out[i] == Join(ps[i]))
    && (forall d :: d in ps <==> d in paths)
    && (forall i, j :: 0 <= i < j < |ps| ==> ps[i] != ps[j])
  }

  lemma PrintsAppend(out: seq<string>, ps: seq<Path>, a: set<Path>, more: seq<string>, qs: seq<Path>, b: set<Path>)
    requires Prints(out, ps, a) && Prints(more, qs, b) && a !! b
    ensures Prints(out + more, ps + qs, a + b)
  {
    forall i, j | 0 <= i < |ps| && 0 <= j < |qs| ensures ps[i] != qs[j] {
      assert ps[i] in ps && qs[j] in qs;
    }
  }

  function SplitAll(paths: seq<string>): set<Path> {
    set path | path in paths :: Split(path)
  }

  lemma SplitAllFurther(paths: seq<string>, i: nat)
    requires i < |paths|
    ensures SplitAll(paths[..i + 1]) == SplitAll(paths[..i]) + {Split(paths[i])}
  {
  }

  ghost predicate AcceptedUpTo(g: Schema, t: string, paths: seq<string>, n: nat)
    requires t in g && WellFormed(g) && n <= |paths|
  {
    forall j :: 0 <= j < n ==> Accepts(g, t, Split(paths[j]))
  }

  ghost predicate FirstRefused(g: Schema, t: string, paths: seq<string>, n: nat)
    requires t in g && WellFormed(g) && n < |paths|
  {
    AcceptedUpTo(g, t, paths, n) && !Accepts(g, t, Split(paths[n]))
  }

  /** A refusal is of the first path that is refused, and true of it. */
  ghost predicate RefusesFirst(g: Schema, t: string, paths: seq<string>, e: MaskError)
    requires t in g && WellFormed(g)
  {
    exists k: nat ::
      k < |paths| && FirstRefused(g, t, paths, k) && e.path == paths[k] && Refuses(g, t, Split(paths[k]), e)
  }

  /** Build a mask over a message type from dotted paths, refusing the first that
      names no field or goes into what is not a message. */
  method NewFieldMask(g: Schema, t: string, paths: seq<string>) returns (r: Result<FieldMask, MaskError>)
    requires t in g && WellFormed(g)
    ensures r.Ok? <==> AcceptedUpTo(g, t, paths, |paths|)
    ensures r.Ok? ==>
              && fresh(r.value) && fresh(r.value.Repr) && r.value.desc == t
              && r.value.Valid() && r.value.Tight() && r.value.Declared() == SplitAll(paths)
    ensures r.Err? ==> RefusesFirst(g, t, paths, r.error)
  {
    var mask := new FieldMask(t);
    for i := 0 to |paths|
      invariant mask.Valid() && mask.Tight() && fresh(mask.Repr)
      invariant mask.Declared() == SplitAll(paths[..i])
      invariant AcceptedUpTo(g, t, paths, i)
    {
      ghost var keys, declared := mask.nodes.Keys, mask.Declared();
      var error := mask.Declare(g, paths[i]);
      FaultIsTrue(g, t, paths[i], Split(paths[i]));
      if error.Some? {
        assert FirstRefused(g, t, paths, i);
        return Err(error.value);
      }
      SplitAllFurther(paths, i);
      TightGrows(keys, declared, mask.nodes.Keys, Split(paths[i]));
    }
    assert paths[..|paths|] == paths;
    r := Ok(mask);
  }

  /** The printed paths of a set, in order: what paths() answers. */
  ghost predicate IsListing(out: seq<string>, paths: set<Path>) {
    && Ascending(out, Same) && Distinct(out, Same)
    && forall s :: s in out <==> exists p :: p in paths && s == Join(p)
  }

  lemma ListingIsUnique(a: seq<string>, b: seq<string>, paths: set<Path>)
    requires IsListing(a, paths) && IsListing(b, paths)
    ensures a == b
  {
    AscendingIsUnique(a, b, Same);
  }

  ghost predicate Printable(p: Path) {
    p != [] && forall name :: name in p ==> name != "" && '.' !in name
  }

  ghost predicate AllPrintable(paths: set<Path>) {
    forall p :: p in paths ==> Printable(p)
  }

  lemma SortedPrintsAreTheListing(out: seq<string>, ps: seq<Path>, paths: set<Path>)
    requires Prints(out, ps, paths)
    requires AllPrintable(paths)
    ensures IsListing(Sort(out, Same), paths)
  {
    var r := Sort(out, Same);
    forall i, j | 0 <= i < j < |out| ensures out[i] != out[j] {
      assert ps[i] in ps && ps[j] in ps;
      SplitOfJoin(ps[i]);
      SplitOfJoin(ps[j]);
    }
    RearrangedIsDistinct(out, r, Same);
    forall s ensures s in r <==> exists p :: p in paths && s == Join(p) {
      if s in out {
        var i :| 0 <= i < |out| && out[i] == s;
        assert ps[i] in ps;
      }
      if p :| p in paths && s == Join(p) {
        assert p in ps;
        var i :| 0 <= i < |ps| && ps[i] == p;
        assert out[i] == s;
      }
    }
  }

  lemma {:induction false} AcceptedIsPrintable(g: Schema, t: string, p: Path)
    requires t in g && WellFormed(g) && Accepts(g, t, p)
    ensures Printable(p)
    decreases |p|
  {
    if |p| > 1 {
      AcceptedIsPrintable(g, g[t][p[0]].of, p[1..]);
    }
    assert p == [p[0]] + p[1..];
  }

  /** Every node of a tight mask over printable paths is named. */
  lemma TightIsNamed(mask: FieldMask)
    requires mask.Valid() && mask.Tight() && AllPrintable(mask.Declared())
    ensures mask.Named()
  {
    forall p | p in mask.nodes ensures "" !in p {
      if p != [] {
        var d := mask.OnTheWay(p);
        assert Printable(d);
        assert forall name :: name in p ==> name in d;
      }
    }
  }

  /** The allowed paths, sorted. */
  method Paths(mask: FieldMask) returns (out: seq<string>)
    requires mask.Valid() && mask.Tight() && AllPrintable(mask.Declared())
    ensures IsListing(out, Minimal(mask.Declared()))
  {
    TightIsNamed(mask);
    var found, ps := mask.Walk("", mask.root);
    assert mask.Leaves([]) == Minimal(mask.Declared());
    assert AllPrintable(Minimal(mask.Declared()));
    SortedPrintsAreTheListing(found, ps, Minimal(mask.Declared()));
    out := Sort(found, Same);
  }

  /** The listing of what was declared splits back into its minimal paths, each
      printed as it was declared. */
  lemma ListingSplitsBack(g: Schema, t: string, declared: seq<string>, printed: seq<string>)
    requires t in g && WellFormed(g) && AcceptedUpTo(g, t, declared, |declared|)
    requires IsListing(printed, Minimal(SplitAll(declared)))
    ensures SplitAll(printed) == Minimal(SplitAll(declared))
    ensures forall path :: path in printed ==> path in declared
    ensures AcceptedUpTo(g, t, printed, |printed|)
  {
    var d := SplitAll(declared);
    forall path | path in printed ensures path in declared && Split(path) in Minimal(d) {
      var p :| p in Minimal(d) && path == Join(p);
      var q :| q in declared && Split(q) == p;
      JoinOfSplit(q);
    }
    forall p | p in Minimal(d) ensures p in SplitAll(printed) {
      assert Join(p) in printed;
      AcceptedIsPrintable(g, t, p);
      SplitOfJoin(p);
    }
    forall j | 0 <= j < |printed| ensures Accepts(g, t, Split(printed[j])) {
      assert printed[j] in declared;
    }
  }

  lemma MinimalIsMinimal(paths: set<Path>)
    ensures Minimal(Minimal(paths)) == Minimal(paths)
  {
  }

  method PrintDeclared(g: Schema, t: string, paths: seq<string>) returns (printed: seq<string>)
    requires t in g && WellFormed(g) && AcceptedUpTo(g, t, paths, |paths|)
    ensures IsListing(printed, Minimal(SplitAll(paths)))
  {
    forall p | p in SplitAll(paths) ensures Printable(p) { AcceptedIsPrintable(g, t, p); }
    var built := NewFieldMask(g, t, paths);
    printed := Paths(built.value);
  }

  /** Print, rebuild, print: the printed paths are accepted, allow exactly what
      the first declaration did of every message, and print the same again. */
  method PrintedMaskRebuilds(g: Schema, t: string, declared: seq<string>)
    returns (printed: seq<string>, again: seq<string>)
    requires t in g && WellFormed(g) && AcceptedUpTo(g, t, declared, |declared|)
    ensures again == printed && IsListing(printed, Minimal(SplitAll(declared)))
    ensures forall path :: path in printed ==> path in declared
    ensures AcceptedUpTo(g, t, printed, |printed|)
    ensures forall m :: Filter(SplitAll(printed), m) == Filter(SplitAll(declared), m)
  {
    printed := PrintDeclared(g, t, declared);
    ListingSplitsBack(g, t, declared, printed);
    again := PrintDeclared(g, t, printed);
    MinimalIsMinimal(SplitAll(declared));
    ListingIsUnique(printed, again, Minimal(SplitAll(declared)));
    forall m ensures Filter(SplitAll(printed), m) == Filter(SplitAll(declared), m) {
      MinimalFiltersAlike(SplitAll(declared), m);
    }
  }

  /** What is printed depends only on the set of minimal declared paths: not on
      the order of the declaration, nor on what it repeats or already covers. */
  method OrderAndRedundancyDoNotShow(g: Schema, t: string, a: seq<string>, b: seq<string>)
    returns (printedA: seq<string>, printedB: seq<string>)
    requires t in g && WellFormed(g) && AcceptedUpTo(g, t, a, |a|) && AcceptedUpTo(g, t, b, |b|)
    requires Minimal(SplitAll(a)) == Minimal(SplitAll(b))
    ensures printedA == printedB
  {
    printedA := PrintDeclared(g, t, a);
    printedB := PrintDeclared(g, t, b);
    ListingIsUnique(printedA, printedB, Minimal(SplitAll(a)));
  }
}
