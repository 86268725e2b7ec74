/** The ceiling check: whether one asked scope falls inside a declared ceiling. */
module Ceiling {
  import opened Wrappers
  import opened AskKey

  /** Why an entry of the asked kind does not cover an ask. */
  datatype Reason =
    | ActionNotAllowed(allowed: seq<string>, action: string)
    | WholeKindAsked(named: seq<string>)
    | ResourceNotNamed(named: seq<string>, id: string)

  datatype Excess =
    | KindNotNamed(kind: string)
    | NoEntryCovers(kind: string, reasons: seq<Reason>)

  // --- the procedure ---

  /** The first of xs that is not in among. */
  function FirstNotIn(xs: seq<string>, among: seq<string>): (r: Option<string>)
    ensures r == None <==> forall x :: x in xs ==> x in among
    ensures r.Some? ==> r.value in xs && r.value !in among
  {
    if xs == [] then None
    else if xs[0] !in among then Some(xs[0])
    else FirstNotIn(xs[1..], among)
  }

  function CoveredBy(asked: Scope, allowed: Scope): Option<Reason> {
    match FirstNotIn(asked.actions, allowed.actions)
    case Some(action) => Some(ActionNotAllowed(allowed.actions, action))
    case None =>
      if allowed.ids == [] then None
      else if asked.ids == [] then Some(WholeKindAsked(allowed.ids))
      else
        match FirstNotIn(asked.ids, allowed.ids)
        case Some(id) => Some(ResourceNotNamed(allowed.ids, id))
        case None => None
  }

  predicate Covers(asked: Scope, allowed: Scope) {
    allowed.kind == asked.kind && CoveredBy(asked, allowed) == None
  }

  predicate Accepts(asked: Scope, ceiling: seq<Scope>) {
    exists entry :: entry in ceiling && Covers(asked, entry)
  }

  /** What every entry of the asked kind says against it, in the ceiling's order. */
  function ReasonsOf(asked: Scope, ceiling: seq<Scope>): seq<Reason> {
    if ceiling == [] then []
    else
      var last := ceiling[|ceiling| - 1];
      var before := ReasonsOf(asked, ceiling[..|ceiling| - 1]);
      if last.kind == asked.kind && CoveredBy(asked, last).Some? then before + [CoveredBy(asked, last).value]
      else before
  }

  /** The entries of a kind, in their order. */
  function OfKind(ceiling: seq<Scope>, kind: string): seq<Scope> {
    if ceiling == [] then []
    else
      var before := OfKind(ceiling[..|ceiling| - 1], kind);
      if ceiling[|ceiling| - 1].kind == kind then before + [ceiling[|ceiling| - 1]] else before
  }

  /** A reason is true of an entry: an action asked that it does not allow; or none,
      and it names resources, and the ask none of its own; or an id asked that it
      does not name. */
  predicate TrueOf(reason: Reason, asked: Scope, entry: Scope) {
    match reason
    case ActionNotAllowed(allowed, action) =>
      allowed == entry.actions && action in asked.actions && action !in entry.actions
    case WholeKindAsked(named) =>
      && named == entry.ids != [] && asked.ids == []
      && forall action :: action in asked.actions ==> action in entry.actions
    case ResourceNotNamed(named, id) =>
      && named == entry.ids != [] && id in asked.ids && id !in entry.ids
      && forall action :: action in asked.actions ==> action in entry.actions
  }

  /** One reason for each entry of the kind, in their order. */
  lemma {:induction false} ReasonsAreTrue(asked: Scope, ceiling: seq<Scope>)
    requires !Accepts(asked, ceiling)
    ensures var reasons, entries := ReasonsOf(asked, ceiling), OfKind(ceiling, asked.kind);
            |reasons| == |entries| && forall i :: 0 <= i < |entries| ==> TrueOf(reasons[i], asked, entries[i])
  {
    if ceiling != [] {
      var before, last := ceiling[..|ceiling| - 1], ceiling[|ceiling| - 1];
      assert last in ceiling && (Accepts(asked, before) ==> Accepts(asked, ceiling));
      ReasonsAreTrue(asked, before);
      assert last.kind == asked.kind ==> TrueOf(CoveredBy(asked, last).value, asked, last);
    }
  }

  lemma {:induction false} KindIsListed(kind: string, ceiling: seq<Scope>)
    requires exists j :: 0 <= j < |ceiling| && ceiling[j].kind == kind
    ensures OfKind(ceiling, kind) != []
  {
    if ceiling[|ceiling| - 1].kind != kind {
      var j :| 0 <= j < |ceiling| && ceiling[j].kind == kind;
      assert ceiling[..|ceiling| - 1][j].kind == kind;
      KindIsListed(kind, ceiling[..|ceiling| - 1]);
    }
  }

  /** An entry that spans an ask: of its kind, with every action it asks for, and
      naming no resource, or every one the ask names, which then names some. */
  predicate Spans(entry: Scope, asked: Scope) {
    && entry.kind == asked.kind
    && (forall action :: action in asked.actions ==> action in entry.actions)
    && (entry.ids == [] || (asked.ids != [] && forall id :: id in asked.ids ==> id in entry.ids))
  }

  /** What is accepted is what one entry spans. */
  lemma AcceptsIff(asked: Scope, ceiling: seq<Scope>)
    ensures Accepts(asked, ceiling) <==> exists i :: 0 <= i < |ceiling| && Spans(ceiling[i], asked)
  {
    if Accepts(asked, ceiling) {
      var entry :| entry in ceiling && Covers(asked, entry);
      var i :| 0 <= i < |ceiling| && ceiling[i] == entry;
      assert Spans(ceiling[i], asked);
    }
    if i :| 0 <= i < |ceiling| && Spans(ceiling[i], asked) {
      assert ceiling[i] in ceiling && Covers(asked, ceiling[i]);
    }
  }

  /** Accepted when some one entry covers the ask, wherever it stands; otherwise
      the refusal says whether the kind is named at all, and if it is, why each
      entry that names it falls short. */
  method WithinCeiling(asked: Scope, ceiling: seq<Scope>) returns (r: Result<(), Excess>)
    ensures r.Ok? <==> Accepts(asked, ceiling)
    ensures r.Err? ==> r.error.kind == asked.kind
    ensures r == Err(KindNotNamed(asked.kind)) <==> forall entry :: entry in ceiling ==> entry.kind != asked.kind
    ensures r.Err? && r.error.NoEntryCovers? ==>
              var entries := OfKind(ceiling, asked.kind);
              |r.error.reasons| == |entries| > 0
              && forall i :: 0 <= i < |entries| ==> TrueOf(r.error.reasons[i], asked, entries[i])
  {
    var reasons: seq<Reason> := [];
    var kindNamed := false;
    for i := 0 to |ceiling|
      invariant kindNamed <==> exists j :: 0 <= j < i && ceiling[j].kind == asked.kind
      invariant reasons == ReasonsOf(asked, ceiling[..i])
      invariant forall j :: 0 <= j < i ==> !Covers(asked, ceiling[j])
    {
      var allowed := ceiling[i];
      assert ceiling[..i + 1][..i] == ceiling[..i];
      if allowed.kind == asked.kind {
        kindNamed := true;
        match CoveredBy(asked, allowed) {
          case Some(reason) => reasons := reasons + [reason];
          case None =>
            assert Covers(asked, allowed);
            return Ok(());
        }
      }
    }
    assert ceiling[..|ceiling|] == ceiling;
    ReasonsAreTrue(asked, ceiling);
    if kindNamed { KindIsListed(asked.kind, ceiling); }
    r := Err(if kindNamed then NoEntryCovers(asked.kind, reasons) else KindNotNamed(asked.kind));
  }

  // --- what a scope stands for ---

  /** One thing a call can do: an action on one resource of a kind. */
  datatype Act = Act(kind: string, action: string, id: string)

  /** The acts a scope grants. Ids are unbounded, so naming none grants more than
      naming any list of them. */
  predicate Grants(s: Scope, act: Act) {
    act.kind == s.kind && act.action in s.actions && (s.ids == [] || act.id in s.ids)
  }

  ghost predicate Inside(asked: Scope, allowed: Scope) {
    forall act: Act :: Grants(asked, act) ==> Grants(allowed, act)
  }

  ghost predicate InsideOne(asked: Scope, ceiling: seq<Scope>) {
    exists entry :: entry in ceiling && Inside(asked, entry)
  }

  /** An id no list of ids names. */
  function FreshId(ids: seq<string>): (id: string)
    ensures forall k :: 0 <= k < |ids| ==> |ids[k]| < |id|
  {
    if ids == [] then "x"
    else
      var rest := FreshId(ids[1..]);
      if |ids[0]| < |rest| then rest else ids[0] + "x"
  }

  /** Covering is sound whatever is asked. */
  lemma CoveringIsSound(asked: Scope, allowed: Scope)
    requires Covers(asked, allowed)
    ensures Inside(asked, allowed)
  {
  }

  /** And complete for an ask that names an action. */
  lemma CoveringIsComplete(asked: Scope, allowed: Scope)
    requires asked.actions != [] && Inside(asked, allowed)
    ensures Covers(asked, allowed)
  {
    var anId := if asked.ids == [] then FreshId(allowed.ids) else asked.ids[0];
    forall action | action in asked.actions ensures allowed.kind == asked.kind && action in allowed.actions {
      assert Grants(asked, Act(asked.kind, action, anId));
    }
    forall id | id in asked.ids ensures Grants(allowed, Act(asked.kind, asked.actions[0], id)) {
      assert Grants(asked, Act(asked.kind, asked.actions[0], id));
    }
    assert Grants(asked, Act(asked.kind, asked.actions[0], anId));
    assert Grants(allowed, Act(asked.kind, asked.actions[0], anId));
  }

  /** The check decides containment in a single entry, for every ceiling, exactly
      when the ask names an action. One that names none grants nothing, lies
      inside anything, and is still held to the shape of an entry. */
  lemma DecidesContainmentIffAnActionIsAsked(asked: Scope)
    ensures (forall ceiling :: Accepts(asked, ceiling) <==> InsideOne(asked, ceiling)) <==> asked.actions != []
  {
    if asked.actions != [] {
      forall ceiling
        ensures Accepts(asked, ceiling) <==> InsideOne(asked, ceiling)
      {
        DecidesContainment(asked, ceiling);
      }
    } else {
      var elsewhere := Scope(asked.kind + "x", [], []);
      assert Inside(asked, elsewhere);
      assert elsewhere in [elsewhere] && InsideOne(asked, [elsewhere]);
      assert |asked.kind| != |elsewhere.kind|;
      assert !Accepts(asked, [elsewhere]);
    }
  }

  lemma DecidesContainment(asked: Scope, ceiling: seq<Scope>)
    requires asked.actions != []
    ensures Accepts(asked, ceiling) <==> InsideOne(asked, ceiling)
  {
    if Accepts(asked, ceiling) {
      var entry :| entry in ceiling && Covers(asked, entry);
      CoveringIsSound(asked, entry);
    }
    if InsideOne(asked, ceiling) {
      var entry :| entry in ceiling && Inside(asked, entry);
      CoveringIsComplete(asked, entry);
    }
  }

  /** An ask that two entries cover only between them is refused, though each of
      its acts is granted: coverage is one entry's. */
  lemma UnionIsNotEnough(kind: string, read: string, list: string, a: string, b: string)
    requires read != list && a != b
    ensures
      var ceiling := [Scope(kind, [read], [a]), Scope(kind, [read], [b])];
      var asked := Scope(kind, [read], [a, b]);
      && (forall act: Act :: Grants(asked, act) ==> Grants(ceiling[0], act) || Grants(ceiling[1], act))
      && !Accepts(asked, ceiling)
    ensures
      var ceiling := [Scope(kind, [read], [a]), Scope(kind, [list], [b])];
      !Accepts(Scope(kind, [read, list], [a, b]), ceiling)
  {
    DecidesContainment(Scope(kind, [read], [a, b]), [Scope(kind, [read], [a]), Scope(kind, [read], [b])]);
    assert Grants(Scope(kind, [read], [a, b]), Act(kind, read, a));
    assert Grants(Scope(kind, [read], [a, b]), Act(kind, read, b));
    DecidesContainment(Scope(kind, [read, list], [a, b]), [Scope(kind, [read], [a]), Scope(kind, [list], [b])]);
    assert Grants(Scope(kind, [read, list], [a, b]), Act(kind, read, b));
    assert Grants(Scope(kind, [read, list], [a, b]), Act(kind, list, a));
  }

  /** Coverage passes down: what an accepted ask grants, any narrower ask is
      accepted for too. */
  lemma NarrowerIsAccepted(narrower: Scope, asked: Scope, ceiling: seq<Scope>)
    requires narrower.actions != [] && Inside(narrower, asked) && Accepts(asked, ceiling)
    ensures Accepts(narrower, ceiling)
  {
    var entry :| entry in ceiling && Covers(asked, entry);
    CoveringIsSound(asked, entry);
    assert Inside(narrower, entry) by {
      forall act: Act | Grants(narrower, act) ensures Grants(entry, act) { assert Grants(asked, act); }
    }
    CoveringIsComplete(narrower, entry);
  }
}
