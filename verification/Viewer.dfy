/** Whom a checked Work Context is for, and whose resources a child of it is
    asked for. */
module Viewer {
  import opened Wrappers
  import opened AskKey
  import opened Renewal

  /** A scope as the authority grants it; an empty owner selects none. */
  datatype Granted = Granted(kind: string, owner: string)

  datatype Actor = Actor(principal: string, granted: seq<Granted>)

  datatype WorkContext = WorkContext(tenant: string, owner: string, chain: seq<Actor>, scopes: seq<Granted>)

  /** A scope as a child is asked for. */
  datatype WorkScope = WorkScope(kind: string, actions: seq<string>, ids: seq<string>, owner: string)

  /** The organization and owner the authority names, and the last actor of the
      chain, or the owner when nobody has hopped. */
  method PrincipalsOf(wc: WorkContext) returns (principals: Principals, actors: seq<string>)
    ensures principals.organization == wc.tenant && principals.owner == wc.owner
    ensures |actors| == |wc.chain| && forall i :: 0 <= i < |wc.chain| ==> actors[i] == wc.chain[i].principal
    ensures wc.chain == [] ==> principals.actor == wc.owner
    ensures wc.chain != [] ==> principals.actor == wc.chain[|wc.chain| - 1].principal
  {
    actors := [];
    for i := 0 to |wc.chain|
      invariant |actors| == i && forall k :: 0 <= k < i ==> actors[k] == wc.chain[k].principal
    {
      actors := actors + [wc.chain[i].principal];
    }
    principals := Principals(wc.tenant, wc.owner, if |actors| > 0 then actors[|actors| - 1] else wc.owner);
  }

  /** The one owner the effective scopes select: those granted to the last actor, or
      where nobody has hopped the authority's own. None where they select none, and
      never one of two. */
  method SelectedOwner(wc: WorkContext) returns (owner: string)
    ensures var effective := if wc.chain == [] then wc.scopes else wc.chain[|wc.chain| - 1].granted;
            if owner != "" then
              && (exists i :: 0 <= i < |effective| && effective[i].owner == owner)
              && (forall i :: 0 <= i < |effective| ==> effective[i].owner == "" || effective[i].owner == owner)
            else
              || (forall i :: 0 <= i < |effective| ==> effective[i].owner == "")
              || (exists i, j :: 0 <= i < j < |effective| && effective[i].owner != "" && effective[j].owner != ""
                    && effective[i].owner != effective[j].owner)
  {
    var effective := wc.scopes;
    if |wc.chain| > 0 {
      effective := wc.chain[|wc.chain| - 1].granted;
    }
    owner := "";
    for i := 0 to |effective|
      invariant forall k :: 0 <= k < i ==> effective[k].owner == "" || effective[k].owner == owner
      invariant owner != "" ==> exists k :: 0 <= k < i && effective[k].owner == owner
    {
      var selected := effective[i].owner;
      if selected == "" || selected == owner {
      } else if owner == "" {
        owner := selected;
      } else {
        return "";
      }
    }
  }

  /** What the authority is asked for: the asked scopes, each naming that owner
      and no more. */
  method AskedOf(scopes: seq<Scope>, owner: string) returns (asked: seq<WorkScope>)
    ensures |asked| == |scopes|
    ensures forall i :: 0 <= i < |scopes| ==>
              asked[i] == WorkScope(scopes[i].kind, scopes[i].actions, scopes[i].ids, owner)
  {
    asked := [];
    for i := 0 to |scopes|
      invariant |asked| == i
      invariant forall k :: 0 <= k < i ==>
                  asked[k] == WorkScope(scopes[k].kind, scopes[k].actions, scopes[k].ids, owner)
    {
      asked := asked + [WorkScope(scopes[i].kind, scopes[i].actions, scopes[i].ids, owner)];
    }
  }
}
