/** What a response allowlist lets through, on values: messages as trees of
    populated fields, a mask as its set of declared paths. */
module MaskLaws {

  type Path = seq<string>

  /** A populated message: the fields it has, by name. Unknown fields are not
      part of this model. */
  datatype Message = Message(fields: map<string, Value>)

  /** A field's value. Whatever has no message inside a mask may descend into (a
      scalar, a list of scalars, a map) is kept or dropped whole. */
  datatype Value =
    | Leaf(repr: string)
    | Sub(message: Message)
    | Many(messages: seq<Message>)

  /** The paths declared under a field, from that field on. */
  function Under(declared: set<Path>, name: string): (r: set<Path>)
    ensures forall p :: p in r <==> [name] + p in declared
  {
    var r := set d | d in declared && d != [] && d[0] == name :: d[1..];
    assert forall p :: [name] + p in declared ==> ([name] + p)[1..] == p && p in r;
    assert forall p :: p in r ==>
             exists d :: d in declared && d != [] && d[0] == name && d[1..] == p && d == [name] + p;
    r
  }

  /** What remains of a message: a field no declared path runs through is
      dropped, one a declared path ends at is kept whole, and in between only
      what is allowed inside it is kept, its presence with it. */
  function Filter(declared: set<Path>, m: Message): Message
    decreases m
  {
    if [] in declared then m
    else Message(map f | f in m.fields && Under(declared, f) != {} :: FilterValue(Under(declared, f), m.fields[f]))
  }

  function FilterValue(declared: set<Path>, v: Value): Value
    decreases v
  {
    match v
    case Leaf(_) => v
    case Sub(m) => Sub(Filter(declared, m))
    case Many(ms) => Many(seq(|ms|, i requires 0 <= i < |ms| => Filter(declared, ms[i])))
  }

  // --- looking at a message from outside ---

  /** One step inside: a field, and which of its messages. */
  type Step = (string, nat)

  datatype Seen = Absent | ALeaf(repr: string) | AMessage | AList(length: nat)

  function Glance(v: Value): Seen {
    match v
    case Leaf(repr) => ALeaf(repr)
    case Sub(_) => AMessage
    case Many(ms) => AList(|ms|)
  }

  /** What stands at a field, reached through steps. */
  function See(m: Message, steps: seq<Step>, last: string): Seen
    decreases |steps|
  {
    if steps == [] then
      if last in m.fields then Glance(m.fields[last]) else Absent
    else if steps[0].0 !in m.fields then Absent
    else
      match m.fields[steps[0].0]
      case Leaf(_) => Absent
      case Sub(inner) => if steps[0].1 == 0 then See(inner, steps[1..], last) else Absent
      case Many(ms) => if steps[0].1 < |ms| then See(ms[steps[0].1], steps[1..], last) else Absent
  }

  /** The field path a position is at. */
  function PathOf(steps: seq<Step>, last: string): (p: Path)
    ensures p != []
    decreases |steps|
  {
    if steps == [] then [last] else [steps[0].0] + PathOf(steps[1..], last)
  }

  /** At or under a declared path, or on the way to one. */
  ghost predicate Passes(declared: set<Path>, p: Path) {
    exists d :: d in declared && (d <= p || p <= d)
  }

  lemma PassesUnder(declared: set<Path>, p: Path)
    requires p != [] && [] !in declared
    ensures Passes(declared, p) <==> Passes(Under(declared, p[0]), p[1..])
  {
    var u := Under(declared, p[0]);
    if Passes(declared, p) {
      var d :| d in declared && (d <= p || p <= d);
      assert d == [p[0]] + d[1..] && d[1..] in u;
      assert d[1..] <= p[1..] || p[1..] <= d[1..];
    }
    if Passes(u, p[1..]) {
      var e :| e in u && (e <= p[1..] || p[1..] <= e);
      assert p == [p[0]] + p[1..];
      assert [p[0]] + e <= p || p <= [p[0]] + e;
    }
  }

  /** Filter is exact: at every position it shows what the message shows there
      when the position's path passes, and nothing otherwise. */
  lemma {:induction false} FilterIsExact(declared: set<Path>, m: Message, steps: seq<Step>, last: string)
    ensures See(Filter(declared, m), steps, last)
         == if Passes(declared, PathOf(steps, last)) then See(m, steps, last) else Absent
    decreases |steps|
  {
    var p := PathOf(steps, last);
    if [] in declared {
      assert [] <= p;
    } else {
      var u := Under(declared, p[0]);
      PassesUnder(declared, p);
      if steps == [] {
        assert Passes(u, []) <==> u != {} by {
          if u != {} { var e :| e in u; assert [] <= e; }
        }
      } else {
        assert p[1..] == PathOf(steps[1..], last);
        if p[0] in m.fields && u != {} {
          match m.fields[p[0]] {
            case Leaf(_) =>
            case Sub(inner) => FilterIsExact(u, inner, steps[1..], last);
            case Many(ms) => if steps[0].1 < |ms| { FilterIsExact(u, ms[steps[0].1], steps[1..], last); }
          }
        }
      }
    }
  }

  ghost predicate Alike(a: Message, b: Message) {
    forall steps, last :: See(a, steps, last) == See(b, steps, last)
  }

  /** Alike at every position whose path passes. */
  ghost predicate AlikeWherePassing(declared: set<Path>, a: Message, b: Message) {
    forall steps, last :: Passes(declared, PathOf(steps, last)) ==> See(a, steps, last) == See(b, steps, last)
  }

  /** Two messages that look alike at every position are equal. */
  lemma {:induction false} LookingAlike(a: Message, b: Message)
    requires Alike(a, b)
    ensures a == b
    decreases a
  {
    forall f ensures f in a.fields <==> f in b.fields {
      assert See(a, [], f) == See(b, [], f);
    }
    forall f | f in a.fields ensures a.fields[f] == b.fields[f] {
      assert See(a, [], f) == See(b, [], f);
      match a.fields[f] {
        case Leaf(_) =>
        case Sub(x) =>
          InsideAlike(a, b, f, 0);
          LookingAlike(x, b.fields[f].message);
        case Many(xs) =>
          var ys := b.fields[f].messages;
          forall i | 0 <= i < |xs| ensures xs[i] == ys[i] {
            InsideAlike(a, b, f, i);
            LookingAlike(xs[i], ys[i]);
          }
          assert xs == ys;
      }
    }
    assert a.fields == b.fields;
  }

  function Inside(m: Message, f: string, i: nat): Message
    requires f in m.fields && !m.fields[f].Leaf?
    requires if m.fields[f].Sub? then i == 0 else i < |m.fields[f].messages|
  {
    if m.fields[f].Sub? then m.fields[f].message else m.fields[f].messages[i]
  }

  lemma InsideAlike(a: Message, b: Message, f: string, i: nat)
    requires Alike(a, b)
    requires f in a.fields && f in b.fields && !a.fields[f].Leaf? && Glance(a.fields[f]) == Glance(b.fields[f])
    requires if a.fields[f].Sub? then i == 0 else i < |a.fields[f].messages|
    ensures Alike(Inside(a, f, i), Inside(b, f, i))
  {
    forall steps, last ensures See(Inside(a, f, i), steps, last) == See(Inside(b, f, i), steps, last) {
      var deeper := [(f, i)] + steps;
      assert deeper[1..] == steps;
      assert See(a, deeper, last) == See(b, deeper, last);
    }
  }

  /** Non-interference: a mask cannot tell two messages apart exactly when they
      look alike at every position it passes. */
  lemma FilterTellsOnlyWhatPasses(declared: set<Path>, a: Message, b: Message)
    ensures Filter(declared, a) == Filter(declared, b) <==> AlikeWherePassing(declared, a, b)
  {
    if Filter(declared, a) == Filter(declared, b) {
      forall steps, last | Passes(declared, PathOf(steps, last)) ensures See(a, steps, last) == See(b, steps, last) {
        FilterIsExact(declared, a, steps, last);
        FilterIsExact(declared, b, steps, last);
      }
    }
    if AlikeWherePassing(declared, a, b) {
      forall steps, last ensures See(Filter(declared, a), steps, last) == See(Filter(declared, b), steps, last) {
        FilterIsExact(declared, a, steps, last);
        FilterIsExact(declared, b, steps, last);
      }
      LookingAlike(Filter(declared, a), Filter(declared, b));
    }
  }

  /** A second application changes nothing. */
  lemma FilterIsIdempotent(declared: set<Path>, m: Message)
    ensures Filter(declared, Filter(declared, m)) == Filter(declared, m)
  {
    forall steps, last
      ensures See(Filter(declared, Filter(declared, m)), steps, last) == See(Filter(declared, m), steps, last)
    {
      FilterIsExact(declared, m, steps, last);
      FilterIsExact(declared, Filter(declared, m), steps, last);
    }
    LookingAlike(Filter(declared, Filter(declared, m)), Filter(declared, m));
  }

  // --- redundant declarations ---

  /** The declared paths no other declared path already allows. */
  ghost function Minimal(declared: set<Path>): set<Path> {
    set d | d in declared && !(exists e :: e in declared && e < d)
  }

  lemma {:induction false} MinimalBelow(declared: set<Path>, d: Path) returns (e: Path)
    requires d in declared
    ensures e in Minimal(declared) && e <= d
    decreases |d|
  {
    if d in Minimal(declared) {
      e := d;
    } else {
      var s :| s in declared && s < d;
      e := MinimalBelow(declared, s);
    }
  }

  /** The minimal paths allow exactly what all the declared ones do. */
  lemma MinimalFiltersAlike(declared: set<Path>, m: Message)
    ensures Filter(Minimal(declared), m) == Filter(declared, m)
  {
    forall steps, last
      ensures See(Filter(Minimal(declared), m), steps, last) == See(Filter(declared, m), steps, last)
    {
      FilterIsExact(declared, m, steps, last);
      FilterIsExact(Minimal(declared), m, steps, last);
      var p := PathOf(steps, last);
      if Passes(declared, p) {
        var d :| d in declared && (d <= p || p <= d);
        var e := MinimalBelow(declared, d);
        assert e <= p || p <= e;
      }
    }
    LookingAlike(Filter(Minimal(declared), m), Filter(declared, m));
  }
}
