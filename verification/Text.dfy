/** Dotted names, and lists kept in the order of their names. */
module Text {

  // --- dotted names ---

  function Split(s: string, sep: char := '.'): (parts: seq<string>)
    ensures |parts| >= 1
  {
    if s == [] then [""]
    else
      var rest := Split(s[1..], sep);
      if s[0] == sep then [""] + rest else [[s[0]] + rest[0]] + rest[1..]
  }

  function Join(parts: seq<string>): string {
    if parts == [] then ""
    else if |parts| == 1 then parts[0]
    else parts[0] + "." + Join(parts[1..])
  }

  lemma SplitHead(name: string, rest: string, sep: char := '.')
    requires sep !in name
    ensures Split(name, sep) == [name]
    ensures Split(name + [sep] + rest, sep) == [name] + Split(rest, sep)
  {
    if name == [] {
      assert (name + [sep] + rest)[1..] == rest;
    } else {
      SplitHead(name[1..], rest, sep);
      assert name == [name[0]] + name[1..];
      assert (name + [sep] + rest)[1..] == name[1..] + [sep] + rest;
    }
  }

  /** What was joined from names without dots is split into those names. */
  lemma {:induction false} SplitOfJoin(parts: seq<string>)
    requires parts != []
    requires forall part :: part in parts ==> '.' !in part
    ensures Split(Join(parts)) == parts
  {
    if |parts| == 1 {
      SplitHead(parts[0], "");
    } else {
      SplitHead(parts[0], Join(parts[1..]));
      SplitOfJoin(parts[1..]);
      assert parts == [parts[0]] + parts[1..];
    }
  }

  /** What was split is joined back into itself. */
  lemma {:induction false} JoinOfSplit(s: string)
    ensures Join(Split(s)) == s
  {
    if s != [] {
      JoinOfSplit(s[1..]);
      var rest := Split(s[1..]);
      if s[0] == '.' {
        assert ([""] + rest)[1..] == rest;
      } else {
        var head := [s[0]] + rest[0];
        assert ([head] + rest[1..])[1..] == rest[1..];
      }
    }
  }

  lemma {:induction false} JoinFurther(parts: seq<string>, name: string)
    ensures Join(parts + [name]) == if parts == [] then name else Join(parts) + "." + name
  {
    if |parts| >= 1 {
      assert (parts + [name])[1..] == parts[1..] + [name];
      JoinFurther(parts[1..], name);
      if |parts| > 1 {
        assert Join(parts) + "." + name == parts[0] + "." + (Join(parts[1..]) + "." + name);
      }
    }
  }

  lemma SubsetIsNoLarger<T>(a: set<T>, b: set<T>)
    requires a <= b
    ensures |a| <= |b|
  {
    assert b == a + (b - a);
  }

  // --- the order of names ---

  predicate Below(a: string, b: string) {
    b != [] && (a == [] || a[0] < b[0] || (a[0] == b[0] && Below(a[1..], b[1..])))
  }

  /** b goes on past a at k, or has the later letter there, and is as a before. */
  predicate PartAt(a: string, b: string, k: nat) {
    k <= |a| && k < |b| && a[..k] == b[..k] && (k == |a| || a[k] < b[k])
  }

  /** Below is the order of dictionaries: by the first letter that differs, and a
      name before what it begins. */
  lemma {:induction false} BelowIff(a: string, b: string)
    ensures Below(a, b) <==> exists k: nat :: PartAt(a, b, k)
  {
    if a == [] || b == [] || a[0] != b[0] {
      assert Below(a, b) ==> PartAt(a, b, 0);
      assert forall k: nat :: PartAt(a, b, k) && k > 0 ==> a[..k][0] == b[..k][0];
    } else {
      BelowIff(a[1..], b[1..]);
      if k: nat :| PartAt(a[1..], b[1..], k) {
        assert a[..k + 1] == [a[0]] + a[1..][..k] && b[..k + 1] == [b[0]] + b[1..][..k];
        assert PartAt(a, b, k + 1);
      }
      if k: nat :| PartAt(a, b, k) {
        assert k > 0;
        assert a[1..][..k - 1] == a[..k][1..] && b[1..][..k - 1] == b[..k][1..];
        assert PartAt(a[1..], b[1..], k - 1);
      }
    }
  }

  lemma {:induction false} BelowIsTotal(a: string, b: string)
    ensures Below(a, b) || a == b || Below(b, a)
    ensures !(Below(a, b) && Below(b, a))
    ensures !Below(a, a)
  {
    if a != [] && b != [] {
      BelowIsTotal(a[1..], b[1..]);
      assert a == [a[0]] + a[1..] && b == [b[0]] + b[1..];
    }
    if a != [] { BelowIsTotal(a[1..], a[1..]); }
  }

  lemma {:induction false} BelowIsTransitive(a: string, b: string, c: string)
    requires Below(a, b) && Below(b, c)
    ensures Below(a, c)
  {
    if a != [] && a[0] == b[0] && b[0] == c[0] {
      BelowIsTransitive(a[1..], b[1..], c[1..]);
    }
  }

  lemma {:induction false} BelowBehind(head: string, a: string, b: string)
    ensures Below(head + a, head + b) <==> Below(a, b)
  {
    if head == "" {
      assert head + a == a && head + b == b;
    } else {
      BelowBehind(head[1..], a, b);
      assert (head + a)[1..] == head[1..] + a && (head + b)[1..] == head[1..] + b;
    }
  }

  // --- sorting by name ---

  ghost predicate Ascending<T>(xs: seq<T>, name: T -> string) {
    forall i, j :: 0 <= i < j < |xs| ==> !Below(name(xs[j]), name(xs[i]))
  }

  ghost predicate Distinct<T>(xs: seq<T>, name: T -> string) {
    forall i, j :: 0 <= i < j < |xs| ==> name(xs[i]) != name(xs[j])
  }

  function Insert<T>(x: T, xs: seq<T>, name: T -> string): (r: seq<T>)
    requires Ascending(xs, name)
    ensures Ascending(r, name)
    ensures multiset(r) == multiset(xs) + multiset{x}
  {
    if xs == [] then [x]
    else if !Below(name(xs[0]), name(x)) then
      assert xs == [xs[0]] + xs[1..];
      InsertAtHead(x, xs, name);
      [x] + xs
    else
      assert xs == [xs[0]] + xs[1..];
      assert Ascending(xs[1..], name);
      var rest := Insert(x, xs[1..], name);
      InsertBehind(x, xs, rest, name);
      [xs[0]] + rest
  }

  lemma InsertAtHead<T>(x: T, xs: seq<T>, name: T -> string)
    requires Ascending(xs, name) && xs != [] && !Below(name(xs[0]), name(x))
    ensures Ascending([x] + xs, name)
  {
    var r := [x] + xs;
    forall i, j | 0 <= i < j < |r| ensures !Below(name(r[j]), name(r[i])) {
      BelowIsTotal(name(x), name(xs[0]));
      if i == 0 && j > 1 {
        assert !Below(name(xs[j - 1]), name(xs[0]));
        BelowIsTotal(name(xs[0]), name(xs[j - 1]));
        if Below(name(xs[j - 1]), name(x)) {
          BelowIsTotal(name(x), name(xs[j - 1]));
          if name(x) != name(xs[0]) && name(xs[0]) != name(xs[j - 1]) {
            BelowIsTransitive(name(x), name(xs[0]), name(xs[j - 1]));
          }
        }
      }
    }
  }

  lemma InsertBehind<T>(x: T, xs: seq<T>, rest: seq<T>, name: T -> string)
    requires Ascending(xs, name) && xs != [] && Below(name(xs[0]), name(x))
    requires Ascending(rest, name) && multiset(rest) == multiset(xs[1..]) + multiset{x}
    ensures Ascending([xs[0]] + rest, name)
  {
    var r := [xs[0]] + rest;
    forall i, j | 0 <= i < j < |r| ensures !Below(name(r[j]), name(r[i])) {
      BelowIsTotal(name(xs[0]), name(x));
      if i == 0 {
        assert rest[j - 1] in multiset(rest);
        if rest[j - 1] != x {
          assert rest[j - 1] in xs[1..];
          var k :| 1 <= k < |xs| && xs[k] == rest[j - 1];
        }
      }
    }
  }

  function Sort<T>(xs: seq<T>, name: T -> string): (r: seq<T>)
    ensures Ascending(r, name)
    ensures multiset(r) == multiset(xs)
  {
    if xs == [] then []
    else
      assert xs == [xs[0]] + xs[1..];
      Insert(xs[0], Sort(xs[1..], name), name)
  }

  /** A list in order, without repeated names, is determined by what is in it. */
  lemma {:induction false} AscendingIsUnique<T>(xs: seq<T>, ys: seq<T>, name: T -> string)
    requires Ascending(xs, name) && Distinct(xs, name) && Ascending(ys, name) && Distinct(ys, name)
    requires forall x :: x in xs <==> x in ys
    ensures xs == ys
  {
    assert xs != [] ==> xs[0] in xs;
    assert ys != [] ==> ys[0] in ys;
    if xs != [] && ys != [] {
      assert xs[0] in ys && ys[0] in xs;
      var i :| 0 <= i < |ys| && ys[i] == xs[0];
      var j :| 0 <= j < |xs| && xs[j] == ys[0];
      BelowIsTotal(name(xs[0]), name(ys[0]));
      assert i == 0 && j == 0;
      forall x ensures x in xs[1..] <==> x in ys[1..] {
        TailMember(xs, x, name);
        TailMember(ys, x, name);
      }
      AscendingIsUnique(xs[1..], ys[1..], name);
      assert xs == [xs[0]] + xs[1..] && ys == [ys[0]] + ys[1..];
    }
  }

  lemma TailMember<T>(xs: seq<T>, x: T, name: T -> string)
    requires xs != [] && Distinct(xs, name)
    ensures x in xs[1..] <==> x in xs && x != xs[0]
  {
  }

  /** A list of names is its own names. */
  function Same(s: string): string { s }

  /** A rearrangement of a list without repeated names repeats none either. */
  lemma RearrangedIsDistinct<T>(listed: seq<T>, arranged: seq<T>, name: T -> string)
    requires multiset(arranged) == multiset(listed) && Distinct(listed, name)
    ensures |arranged| == |listed| && Distinct(arranged, name)
    ensures forall x :: x in arranged <==> x in listed
  {
    assert |multiset(arranged)| == |arranged| && |multiset(listed)| == |listed|;
    forall x ensures x in arranged <==> x in listed {
      assert x in arranged <==> x in multiset(arranged);
      assert x in listed <==> x in multiset(listed);
    }
    forall i, j | 0 <= i < j < |arranged| ensures name(arranged[i]) != name(arranged[j]) {
      if name(arranged[i]) == name(arranged[j]) {
        assert arranged[i] in listed && arranged[j] in listed;
        Twice(arranged, i, j);
        Once(listed, arranged[i], name);
      }
    }
  }

  lemma Twice<T>(xs: seq<T>, i: nat, j: nat)
    requires i < j < |xs| && xs[i] == xs[j]
    ensures multiset(xs)[xs[i]] >= 2
  {
    assert xs == xs[..i] + [xs[i]] + xs[i + 1..j] + [xs[j]] + xs[j + 1..];
  }

  lemma {:induction false} Once<T>(xs: seq<T>, x: T, name: T -> string)
    requires Distinct(xs, name)
    ensures multiset(xs)[x] <= 1
  {
    if xs != [] {
      var n := |xs| - 1;
      Once(xs[..n], x, name);
      assert xs == xs[..n] + [xs[n]];
      if xs[n] == x { assert forall i :: 0 <= i < n ==> name(xs[i]) != name(x); }
    }
  }
}
