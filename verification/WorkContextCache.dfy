/** The Work Contexts issued while serving one request: what each critical
    section does to the cache, as functions of its contents and as the methods
    that change it in place. */
module WorkContextCache {
  import opened Wrappers
  import opened Renewal

  /** The outcome of an issue, as every caller of resolve is handed it. */
  type Outcome = Result<string, Failure>

  /** The cache's contents. An issue in flight is known by the call leading it. */
  datatype Contents = Contents(
    minted: map<string, Capability>,
    minting: map<string, nat>,
    refused: map<string, Failure>,
    issuedFor: map<string, Principals>)

  const EMPTY := Contents(map[], map[], map[], map[])

  /** What a caller leaves the first critical section with. */
  datatype Entry =
    | Answered(outcome: Outcome)
    | WaitFor(leader: nat)
    | Lead

  /** A token that will still outlive the call. */
  predicate Live(c: Contents, key: string, now: int) {
    key in c.minted && now < c.minted[key].reuseUntil
  }

  function Enter(c: Contents, key: string, now: int): Entry {
    if key in c.refused then Answered(Err(c.refused[key]))
    else if Live(c, key, now) then Answered(Ok(c.minted[key].token))
    else if key in c.minting then WaitFor(c.minting[key])
    else Lead
  }

  function Entered(c: Contents, key: string, now: int, me: nat): Contents {
    if Enter(c, key, now).Lead? then c.(minting := c.minting[key := me]) else c
  }

  function Settled(c: Contents, key: string, answer: Result<Capability, Failure>): Contents {
    var freed := c.(minting := c.minting - {key});
    match answer
    case Ok(capability) => freed.(minted := freed.minted[key := capability])
    case Err(failure) => if Final(failure) then freed.(refused := freed.refused[key := failure]) else freed
  }

  function Remembered(c: Contents, token: string, principals: Principals): Contents {
    c.(issuedFor := c.issuedFor[token := principals])
  }

  /** Whom a token was issued for, if that is remembered. */
  function Reported(c: Contents, token: string): Option<Principals> {
    if token in c.issuedFor then Some(c.issuedFor[token]) else None
  }

  /** What changes the cache. */
  datatype Change =
    | Beginning(key: string, now: int, me: nat)
    | Settling(key: string, answer: Result<Capability, Failure>)
    | Remembering(token: string, principals: Principals)

  function Changed(c: Contents, change: Change): Contents {
    match change
    case Beginning(key, now, me) => Entered(c, key, now, me)
    case Settling(key, answer) => Settled(c, key, answer)
    case Remembering(token, principals) => Remembered(c, token, principals)
  }

  function ChangedBy(c: Contents, changes: seq<Change>): Contents {
    if changes == [] then c else Changed(ChangedBy(c, changes[..|changes| - 1]), changes[|changes| - 1])
  }

  predicate IsOf(change: Change, token: string) {
    change.Remembering? && change.token == token
  }

  predicate LastAt(changes: seq<Change>, k: nat, token: string, principals: Principals) {
    && k < |changes| && changes[k] == Remembering(token, principals)
    && forall l :: k < l < |changes| ==> !IsOf(changes[l], token)
  }

  /** The last that was remembered of a token, by these changes. */
  ghost predicate LastRemembered(changes: seq<Change>, token: string, principals: Principals) {
    exists k: nat :: LastAt(changes, k, token, principals)
  }

  /** Whatever is done to a request's cache, in any order: the principals reported
      for a token are those last remembered with it, and for a token nothing was
      remembered with there are none. */
  lemma {:induction false} LastRememberedIsReported(changes: seq<Change>, token: string, principals: Principals)
    ensures Reported(ChangedBy(EMPTY, changes), token) == Some(principals) <==>
            LastRemembered(changes, token, principals)
  {
    if changes != [] {
      var before, last := changes[..|changes| - 1], changes[|changes| - 1];
      LastRememberedIsReported(before, token, principals);
      OneMoreChange(changes, token, principals);
    }
  }

  lemma OneMoreChange(changes: seq<Change>, token: string, principals: Principals)
    requires changes != []
    ensures var before, last := changes[..|changes| - 1], changes[|changes| - 1];
            LastRemembered(changes, token, principals) <==>
            if IsOf(last, token) then last.principals == principals else LastRemembered(before, token, principals)
  {
    var before, last := changes[..|changes| - 1], changes[|changes| - 1];
    if IsOf(last, token) {
      assert LastAt(changes, |before|, token, last.principals);
    }
    if k: nat :| LastAt(before, k, token, principals) {
      assert IsOf(last, token) || LastAt(changes, k, token, principals);
    }
    if k: nat :| LastAt(changes, k, token, principals) {
      assert IsOf(last, token) || LastAt(before, k, token, principals);
    }
  }

  function OutcomeOf(answer: Result<Capability, Failure>): Outcome {
    match answer
    case Ok(capability) => Ok(capability.token)
    case Err(failure) => Err(failure)
  }

  /** One issue in flight. Its result is written before done is set, and read
      only after. */
  class PendingMint {
    ghost const leader: nat
    var token: string
    var err: Option<Failure>
    var done: bool

    constructor (ghost leader: nat)
      ensures this.leader == leader && !done && err == None && token == ""
    {
      this.leader := leader;
      token, err, done := "", None, false;
    }

    /** The outcome the fields carry. */
    function Result(): Outcome
      reads this
    {
      if err.Some? then Err(err.value) else Ok(token)
    }

    method Write(outcome: Outcome)
      modifies this`token, this`err
      ensures Result() == outcome
    {
      match outcome {
        case Ok(issued) => token, err := issued, None;
        case Err(failure) => token, err := "", Some(failure);
      }
    }

    method Close()
      requires !done
      modifies this`done
      ensures done
    {
      done := true;
    }
  }

  class Cache {
    var minted: map<string, Capability>
    var minting: map<string, PendingMint>
    var refused: map<string, Failure>
    var issuedFor: map<string, Principals>

    constructor ()
      ensures View() == EMPTY
    {
      minted, minting, refused, issuedFor := map[], map[], map[], map[];
    }

    ghost function View(): Contents
      reads this
    {
      Contents(minted, map k | k in minting :: minting[k].leader, refused, issuedFor)
    }

    /** The first critical section: an answer, an issue to wait on, or a fresh
        one for this caller to lead. */
    method Begin(key: string, now: int, ghost me: nat)
      returns (answer: Option<Outcome>, inflight: PendingMint?, leads: bool)
      modifies this`minting
      ensures View() == Entered(old(View()), key, now, me)
      ensures match Enter(old(View()), key, now)
              case Answered(outcome) => answer == Some(outcome) && inflight == null && !leads
              case WaitFor(leader) => answer == None && !leads && inflight != null && inflight.leader == leader
                                      && key in old(minting) && inflight == old(minting[key])
              case Lead => answer == None && leads && inflight != null && fresh(inflight) && !inflight.done
                           && inflight.leader == me && key in minting && minting[key] == inflight
    {
      answer, inflight, leads := None, null, false;
      if key in refused {
        return Some(Err(refused[key])), null, false;
      }
      if key in minted {
        var issued := minted[key];
        if now < issued.reuseUntil {
          return Some(Ok(issued.token)), null, false;
        }
      }
      if key in minting {
        return None, minting[key], false;
      }
      inflight := new PendingMint(me);
      minting := minting[key := inflight];
      leads := true;
    }

    /** The second critical section: the issue is no longer in flight, a final
        refusal is kept, and a token is held until its renewal. */
    method Settle(key: string, answer: Result<Capability, Failure>)
      modifies this`minted, this`minting, this`refused
      ensures View() == Settled(old(View()), key, answer)
    {
      minting := minting - {key};
      match answer {
        case Ok(capability) =>
          minted := minted[key := capability];
        case Err(failure) =>
          if Final(failure) {
            refused := refused[key := failure];
          }
      }
    }

    method Remember(token: string, principals: Principals)
      modifies this`issuedFor
      ensures View() == Remembered(old(View()), token, principals)
    {
      issuedFor := issuedFor[token := principals];
    }

    method PrincipalsOf(token: string) returns (principals: Option<Principals>)
      ensures principals == Reported(View(), token)
    {
      principals := if token in issuedFor then Some(issuedFor[token]) else None;
    }
  }
}
