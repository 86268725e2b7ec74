/** What every step of every interleaving keeps. */
module ResolveInvariants {
  import opened Wrappers
  import opened AskKey
  import opened Renewal
  import opened WorkContextCache
  import opened ResolveProtocol

  /** Between its two critical sections: the call leading its key's issue. */
  predicate Leads(pc: Pc) {
    pc.Issuing? || pc.WantRemember? || pc.InRemember? || pc.HasAnswer? || pc.Written? || pc.InSecond?
  }

  /** Inside a critical section. Waiting and Issuing are not: no call waits on
      another, or on the authority, holding the mutex. */
  predicate Holds(pc: Pc) {
    pc.InFirst? || pc.InRemember? || pc.InSecond?
  }

  /** Its issue has returned, and what it returned is not yet handed on. */
  predicate Carries(pc: Pc) {
    pc.WantRemember? || pc.InRemember? || pc.HasAnswer? || pc.Written? || pc.InSecond? || pc.Closing?
  }

  function Carried(pc: Pc): Result<Capability, Failure>
    requires Carries(pc)
  {
    if pc.WantRemember? || pc.InRemember? then Ok(pc.capability) else pc.answer
  }

  function Fields(pc: Pc): Option<Outcome>
  {
    if pc.Written? || pc.InSecond? || pc.Closing? then Some(OutcomeOf(pc.answer)) else None
  }

  // --- the program's own state ---

  ghost predicate MutualExclusion(s: State) {
    && (s.holder.Some? ==> s.holder.value in s.calls)
    && forall t :: t in s.calls ==> (Holds(s.calls[t].pc) <==> s.holder == Some(t))
  }

  ghost predicate LeadsItsKey(s: State, t: nat) {
    t in s.calls && Leads(s.calls[t].pc) ==>
      s.calls[t].key in s.cache.minting && s.cache.minting[s.calls[t].key] == t
  }

  ghost predicate IsLed(s: State, k: string) {
    k in s.cache.minting ==>
      && s.cache.minting[k] in s.calls
      && Leads(s.calls[s.cache.minting[k]].pc)
      && s.calls[s.cache.minting[k]].key == k
  }

  /** minting[k] is there exactly while one call leads k, and is that call. */
  ghost predicate SingleFlight(s: State) {
    && (forall t :: LeadsItsKey(s, t))
    && (forall k :: IsLed(s, k))
  }

  /** A live token, an issue in flight and a kept refusal exclude each other. */
  ghost predicate Exclusion(s: State) {
    forall k :: k in s.cache.minting || k in s.cache.refused ==>
      && !Live(s.cache, k, s.now)
      && !(k in s.cache.minting && k in s.cache.refused)
  }

  /** A call in flight has its pending issue open, with what it has written. */
  ghost predicate PendingOf(s: State, t: nat) {
    t in s.calls && (Leads(s.calls[t].pc) || s.calls[t].pc.Closing?) ==>
      t in s.pending && s.pending[t] == Pending(Fields(s.calls[t].pc), false)
  }

  /** A pending issue is in flight, or closed with what its leader returned. */
  ghost predicate PendingAt(s: State, t: nat) {
    t in s.pending ==>
      && t in s.calls
      && (Leads(s.calls[t].pc) || s.calls[t].pc.Closing?
          || (s.calls[t].pc.Returned? && s.pending[t] == Pending(Some(s.calls[t].pc.outcome), true)))
  }

  /** A waiter waits on an issue for its own key. */
  ghost predicate WaitsWell(s: State, t: nat) {
    t in s.calls && s.calls[t].pc.Waiting? ==>
      && s.calls[t].pc.leader in s.pending
      && s.calls[t].pc.leader in s.calls
      && s.calls[s.calls[t].pc.leader].key == s.calls[t].key
  }

  ghost predicate PendingIssues(s: State) {
    && (forall t :: PendingOf(s, t))
    && (forall t :: PendingAt(s, t))
    && (forall t :: WaitsWell(s, t))
  }

  // --- the history beside it ---

  /** Where c's issue ended, its record is there. */
  ghost predicate HasEnd(s: State, c: nat) {
    && c in s.history.endOf
    && s.history.endOf[c] < |s.history.log|
    && s.history.log[s.history.endOf[c]].Ended?
  }

  /** What held made of the answer to c's issue. */
  ghost function AnswerTo(s: State, c: nat): Result<Capability, Failure>
    requires HasEnd(s, c)
  {
    var e := s.history.log[s.history.endOf[c]];
    Held(e.answer, e.at)
  }

  ghost predicate EndAt(s: State, c: nat) {
    c in s.history.endOf ==>
      && HasEnd(s, c)
      && c in s.calls && c in s.pending && !s.calls[c].pc.Issuing?
      && var e := s.history.log[s.history.endOf[c]];
         e.call == c && e.key == s.calls[c].key && e.at <= s.now
  }

  /** A leader carries, then returns, what its own issue was answered. */
  ghost predicate CarriesEnd(s: State, t: nat) {
    t in s.calls && Carries(s.calls[t].pc) ==> HasEnd(s, t) && AnswerTo(s, t) == Carried(s.calls[t].pc)
  }

  ghost predicate ReturnedEnd(s: State, t: nat) {
    t in s.pending && t in s.calls && s.calls[t].pc.Returned? ==>
      HasEnd(s, t) && OutcomeOf(AnswerTo(s, t)) == s.calls[t].pc.outcome
  }

  ghost predicate EndsRecorded(s: State) {
    && (forall c :: EndAt(s, c))
    && (forall t :: CarriesEnd(s, t))
    && (forall t :: ReturnedEnd(s, t))
  }

  ghost predicate IsBegin(s: State, i: int) {
    0 <= i < |s.history.log| && s.history.log[i].Began?
  }

  ghost predicate BeginAt(s: State, i: int) {
    IsBegin(s, i) ==>
      var e := s.history.log[i];
      && e.call in s.calls && e.call in s.pending && e.key == s.calls[e.call].key && e.at <= s.now
      && (e.call in s.history.endOf ==> i < s.history.endOf[e.call])
  }

  ghost predicate BeginsRecorded(s: State) {
    forall i :: BeginAt(s, i)
  }

  /** A settled answer is in the cache, or no longer matters: a final refusal is
      kept, and a token is the one held or is past its renewal. */
  ghost predicate AnswerKept(s: State, c: nat) {
    HasEnd(s, c) && c in s.calls && !Leads(s.calls[c].pc) ==>
      match AnswerTo(s, c)
      case Err(f) => Final(f) ==> s.calls[c].key in s.cache.refused && s.cache.refused[s.calls[c].key] == f
      case Ok(capability) =>
        || capability.reuseUntil <= s.now
        || (s.calls[c].key in s.cache.minted && s.cache.minted[s.calls[c].key] == capability)
  }

  ghost predicate AnswersKept(s: State) {
    forall c :: AnswerKept(s, c)
  }

  /** By the instant at, c's issue had ended in nothing that may be reused. */
  ghost predicate Spent(s: State, c: nat, at: int)
    requires HasEnd(s, c)
  {
    match AnswerTo(s, c)
    case Err(f) => !Final(f)
    case Ok(capability) => capability.reuseUntil <= at
  }

  ghost predicate SpentBetween(s: State, i: int, j: int) {
    IsBegin(s, i) && IsBegin(s, j) && i < j && s.history.log[i].key == s.history.log[j].key ==>
      && HasEnd(s, s.history.log[i].call)
      && i < s.history.endOf[s.history.log[i].call] < j
      && Spent(s, s.history.log[i].call, s.history.log[j].at)
  }

  /** Between two issues for one key, the earlier ended and was spent. */
  ghost predicate Economy(s: State) {
    forall i, j :: SpentBetween(s, i, j)
  }

  ghost predicate MintAt(s: State, k: string) {
    k in s.cache.minted ==>
      && k in s.history.minter && HasEnd(s, s.history.minter[k])
      && s.history.minter[k] in s.calls && s.calls[s.history.minter[k]].key == k
      && !Leads(s.calls[s.history.minter[k]].pc)
      && AnswerTo(s, s.history.minter[k]) == Ok(s.cache.minted[k])
      && s.cache.minted[k].token in s.cache.issuedFor
  }

  /** A held token was issued for its key, and whom it is for is remembered. */
  ghost predicate MintsRecorded(s: State) {
    forall k :: MintAt(s, k)
  }

  /** A kept refusal is what some settled issue for its key was answered. */
  ghost predicate RefusedBy(s: State, k: string, c: nat) {
    && HasEnd(s, c) && c in s.calls && s.calls[c].key == k && !Leads(s.calls[c].pc)
    && k in s.cache.refused && Final(s.cache.refused[k]) && AnswerTo(s, c) == Err(s.cache.refused[k])
  }

  ghost predicate RefusalAt(s: State, k: string) {
    k in s.cache.refused ==> exists c :: RefusedBy(s, k, c)
  }

  ghost predicate RefusalsRecorded(s: State) {
    forall k :: RefusalAt(s, k)
  }

  /** A token a call was issued is remembered before it is handed on. */
  ghost predicate NameOf(s: State, c: nat) {
    HasEnd(s, c) && c in s.calls ==>
      if s.calls[c].pc.WantRemember? || s.calls[c].pc.InRemember? then
        var a := s.history.log[s.history.endOf[c]].answer;
        a.Issuance? && a.principals == s.calls[c].pc.principals && a.token == s.calls[c].pc.capability.token
      else
        AnswerTo(s, c).Ok? ==> AnswerTo(s, c).value.token in s.cache.issuedFor
  }

  /** Whom a token is for is what the authority said when it issued that token. */
  ghost predicate NameAt(s: State, token: string) {
    token in s.cache.issuedFor ==>
      && token in s.history.namer && HasEnd(s, s.history.namer[token])
      && var a := s.history.log[s.history.endOf[s.history.namer[token]]].answer;
         a.Issuance? && a.token == token && a.principals == s.cache.issuedFor[token]
  }

  ghost predicate NamesRecorded(s: State) {
    && (forall c :: NameOf(s, c))
    && (forall token :: NameAt(s, token))
  }

  ghost predicate Sourced(s: State, t: nat) {
    t in s.calls && s.calls[t].pc.Returned? && s.calls[t].pc.outcome.Ok? ==>
      && t in s.history.source
      && var c := s.history.source[t];
         && HasEnd(s, c) && c in s.calls && s.calls[c].key == s.calls[t].key
         && AnswerTo(s, c).Ok? && AnswerTo(s, c).value.token == s.calls[t].pc.outcome.value
         && s.calls[t].pc.outcome.value in s.cache.issuedFor
  }

  /** A returned token was issued under the caller's own key. */
  ghost predicate TokensSourced(s: State) {
    forall t :: Sourced(s, t)
  }

  /** A call is under the key of its ask. */
  ghost predicate WellKeyed(s: State) {
    forall t :: KeyedByAsk(s, t)
  }

  ghost predicate KeyedByAsk(s: State, t: nat) {
    t in s.calls ==> s.calls[t].key == Key(s.request, s.calls[t].ask)
  }

  ghost predicate Inv(s: State) {
    && WellKeyed(s)
    && MutualExclusion(s)
    && SingleFlight(s)
    && Exclusion(s)
    && PendingIssues(s)
    && EndsRecorded(s)
    && BeginsRecorded(s)
    && AnswersKept(s)
    && Economy(s)
    && MintsRecorded(s)
    && RefusalsRecorded(s)
    && NamesRecorded(s)
    && TokensSourced(s)
  }

  // --- one step keeps each ---

  lemma MutualExclusionKept(s: State, step: Step)
    requires MutualExclusion(s)
    requires Enabled(s, step)
    ensures MutualExclusion(Next(s, step))
  {
  }

  lemma LeadsItsKeyByFirst(s: State, u: nat, t: nat)
    requires SingleFlight(s) && Enabled(s, First(u))
    ensures LeadsItsKey(Next(s, First(u)), t)
  {
    assert LeadsItsKey(s, t) && IsLed(s, s.calls[u].key);
  }

  lemma LeadsItsKeyBySecond(s: State, u: nat, t: nat)
    requires SingleFlight(s) && Enabled(s, Second(u))
    ensures LeadsItsKey(Next(s, Second(u)), t)
  {
    assert LeadsItsKey(s, t) && LeadsItsKey(s, u);
  }

  lemma LeadsItsKeyOtherwise(s: State, step: Step, t: nat)
    requires SingleFlight(s) && Enabled(s, step) && !step.First? && !step.Second?
    ensures LeadsItsKey(Next(s, step), t)
  {
    assert LeadsItsKey(s, t);
  }

  lemma LeadsItsKeyKept(s: State, step: Step, t: nat)
    requires SingleFlight(s) && Enabled(s, step)
    ensures LeadsItsKey(Next(s, step), t)
  {
    match step {
      case First(u) => LeadsItsKeyByFirst(s, u, t);
      case Second(u) => LeadsItsKeyBySecond(s, u, t);
      case _ => LeadsItsKeyOtherwise(s, step, t);
    }
  }

  lemma IsLedKept(s: State, step: Step, k: string)
    requires SingleFlight(s) && Enabled(s, step)
    ensures IsLed(Next(s, step), k)
  {
    assert IsLed(s, k);
  }

  lemma SingleFlightKept(s: State, step: Step)
    requires SingleFlight(s) && Enabled(s, step)
    ensures SingleFlight(Next(s, step))
  {
    forall t ensures LeadsItsKey(Next(s, step), t) { LeadsItsKeyKept(s, step, t); }
    forall k ensures IsLed(Next(s, step), k) { IsLedKept(s, step, k); }
  }

  lemma ExclusionKept(s: State, step: Step)
    requires SingleFlight(s) && Exclusion(s) && Enabled(s, step)
    ensures Exclusion(Next(s, step))
  {
    match step {
      case Second(u) => assert LeadsItsKey(s, u);
      case _ =>
    }
  }

  lemma PendingOfKept(s: State, step: Step, t: nat)
    requires PendingIssues(s) && Enabled(s, step)
    ensures PendingOf(Next(s, step), t)
  {
    assert PendingOf(s, t);
  }

  lemma PendingAtKept(s: State, step: Step, t: nat)
    requires PendingIssues(s) && Enabled(s, step)
    ensures PendingAt(Next(s, step), t)
  {
    assert PendingAt(s, t) && PendingOf(s, t);
  }

  lemma WaitsWellByFirst(s: State, u: nat, t: nat)
    requires SingleFlight(s) && PendingIssues(s) && Enabled(s, First(u))
    ensures WaitsWell(Next(s, First(u)), t)
  {
    assert WaitsWell(s, t) && IsLed(s, s.calls[u].key);
    if s.calls[u].key in s.cache.minting { assert PendingOf(s, s.cache.minting[s.calls[u].key]); }
  }

  lemma WaitsWellOtherwise(s: State, step: Step, t: nat)
    requires PendingIssues(s) && Enabled(s, step) && !step.First?
    ensures WaitsWell(Next(s, step), t)
  {
    assert WaitsWell(s, t);
  }

  lemma WaitsWellKept(s: State, step: Step, t: nat)
    requires SingleFlight(s) && PendingIssues(s) && Enabled(s, step)
    ensures WaitsWell(Next(s, step), t)
  {
    if step.First? { WaitsWellByFirst(s, step.t, t); } else { WaitsWellOtherwise(s, step, t); }
  }

  lemma PendingIssuesKept(s: State, step: Step)
    requires SingleFlight(s) && PendingIssues(s) && Enabled(s, step)
    ensures PendingIssues(Next(s, step))
  {
    forall t ensures PendingOf(Next(s, step), t) { PendingOfKept(s, step, t); }
    forall t ensures PendingAt(Next(s, step), t) { PendingAtKept(s, step, t); }
    forall t ensures WaitsWell(Next(s, step), t) { WaitsWellKept(s, step, t); }
  }

  /** An end once recorded stays, with the same answer. */
  lemma EndStays(s: State, step: Step, c: nat)
    requires EndsRecorded(s) && Enabled(s, step)
    requires HasEnd(s, c)
    ensures HasEnd(Next(s, step), c)
    ensures Next(s, step).history.endOf[c] == s.history.endOf[c]
    ensures Next(s, step).history.log[s.history.endOf[c]] == s.history.log[s.history.endOf[c]]
    ensures AnswerTo(Next(s, step), c) == AnswerTo(s, c)
  {
    assert EndAt(s, c);
  }

  lemma EndAtKept(s: State, step: Step, c: nat)
    requires PendingIssues(s) && EndsRecorded(s) && Enabled(s, step)
    ensures EndAt(Next(s, step), c)
  {
    assert EndAt(s, c) && PendingOf(s, c) && PendingAt(s, c);
  }

  lemma CarriesEndByAnswer(s: State, u: nat, answer: Renewal.Answer, t: nat)
    requires EndsRecorded(s) && Enabled(s, Answer(u, answer))
    ensures CarriesEnd(Next(s, Answer(u, answer)), t)
  {
    assert CarriesEnd(s, t);
    if HasEnd(s, t) { EndStays(s, Answer(u, answer), t); }
  }

  lemma CarriesEndOtherwise(s: State, step: Step, t: nat)
    requires EndsRecorded(s) && Enabled(s, step) && !step.Answer?
    ensures CarriesEnd(Next(s, step), t)
  {
    assert CarriesEnd(s, t);
    if HasEnd(s, t) { EndStays(s, step, t); }
  }

  lemma CarriesEndKept(s: State, step: Step, t: nat)
    requires EndsRecorded(s) && Enabled(s, step)
    ensures CarriesEnd(Next(s, step), t)
  {
    if step.Answer? { CarriesEndByAnswer(s, step.t, step.answer, t); } else { CarriesEndOtherwise(s, step, t); }
  }

  lemma ReturnedEndKept(s: State, step: Step, t: nat)
    requires PendingIssues(s) && EndsRecorded(s) && Enabled(s, step)
    ensures ReturnedEnd(Next(s, step), t)
  {
    assert ReturnedEnd(s, t) && CarriesEnd(s, t) && PendingAt(s, t);
    if HasEnd(s, t) { EndStays(s, step, t); }
  }

  lemma EndsRecordedKept(s: State, step: Step)
    requires PendingIssues(s) && EndsRecorded(s) && Enabled(s, step)
    ensures EndsRecorded(Next(s, step))
  {
    forall c ensures EndAt(Next(s, step), c) { EndAtKept(s, step, c); }
    forall t ensures CarriesEnd(Next(s, step), t) { CarriesEndKept(s, step, t); }
    forall t ensures ReturnedEnd(Next(s, step), t) { ReturnedEndKept(s, step, t); }
  }

  lemma BeginAtKept(s: State, step: Step, i: int)
    requires PendingIssues(s) && EndsRecorded(s) && BeginsRecorded(s) && Enabled(s, step)
    ensures BeginAt(Next(s, step), i)
  {
    assert BeginAt(s, i);
    match step {
      case First(t) => assert EndAt(s, t) && PendingAt(s, t);
      case _ =>
    }
  }

  lemma BeginsRecordedKept(s: State, step: Step)
    requires PendingIssues(s) && EndsRecorded(s) && BeginsRecorded(s) && Enabled(s, step)
    ensures BeginsRecorded(Next(s, step))
  {
    forall i ensures BeginAt(Next(s, step), i) { BeginAtKept(s, step, i); }
  }

  /** A settling call writes over nothing that another settled answer needs. */
  lemma AnswerKeptBySettling(s: State, u: nat, c: nat)
    requires SingleFlight(s) && Exclusion(s) && EndsRecorded(s) && AnswersKept(s)
    requires Enabled(s, Second(u))
    ensures AnswerKept(Next(s, Second(u)), c)
  {
    assert AnswerKept(s, c) && EndAt(s, c);
    assert LeadsItsKey(s, u) && CarriesEnd(s, u);
    assert HasEnd(Next(s, Second(u)), c) ==> HasEnd(s, c);
  }

  lemma AnswerKeptByAnswer(s: State, u: nat, answer: Renewal.Answer, c: nat)
    requires EndsRecorded(s) && AnswersKept(s) && Enabled(s, Answer(u, answer))
    ensures AnswerKept(Next(s, Answer(u, answer)), c)
  {
    assert AnswerKept(s, c) && EndAt(s, c);
    if HasEnd(s, c) { EndStays(s, Answer(u, answer), c); }
  }

  lemma AnswerKeptByFirst(s: State, u: nat, c: nat)
    requires EndsRecorded(s) && AnswersKept(s) && Enabled(s, First(u))
    ensures AnswerKept(Next(s, First(u)), c)
  {
    assert AnswerKept(s, c) && EndAt(s, c);
    if HasEnd(s, c) { EndStays(s, First(u), c); }
  }

  lemma AnswerKeptOtherwise(s: State, step: Step, c: nat)
    requires EndsRecorded(s) && AnswersKept(s)
    requires Enabled(s, step) && !step.Second? && !step.Answer? && !step.First?
    ensures AnswerKept(Next(s, step), c)
  {
    assert AnswerKept(s, c) && EndAt(s, c);
    if HasEnd(s, c) { EndStays(s, step, c); }
  }

  lemma AnswersKeptKept(s: State, step: Step)
    requires SingleFlight(s) && Exclusion(s) && EndsRecorded(s) && AnswersKept(s)
    requires Enabled(s, step)
    ensures AnswersKept(Next(s, step))
  {
    forall c ensures AnswerKept(Next(s, step), c) {
      match step {
        case Second(u) => AnswerKeptBySettling(s, u, c);
        case Answer(u, answer) => AnswerKeptByAnswer(s, u, answer, c);
        case First(u) => AnswerKeptByFirst(s, u, c);
        case _ => AnswerKeptOtherwise(s, step, c);
      }
    }
  }

  /** A call that may lead its key now finds every earlier issue for it spent. */
  lemma EarlierIsSpent(s: State, t: nat, i: int)
    requires SingleFlight(s) && PendingIssues(s) && EndsRecorded(s) && BeginsRecorded(s) && AnswersKept(s)
    requires t in s.calls && Enter(s.cache, s.calls[t].key, s.now).Lead?
    requires IsBegin(s, i) && s.history.log[i].key == s.calls[t].key
    ensures HasEnd(s, s.history.log[i].call)
    ensures i < s.history.endOf[s.history.log[i].call]
    ensures Spent(s, s.history.log[i].call, s.now)
  {
    var c := s.history.log[i].call;
    assert BeginAt(s, i);
    assert LeadsItsKey(s, c) && PendingAt(s, c);
    assert CarriesEnd(s, c) && ReturnedEnd(s, c);
    assert EndAt(s, c) && AnswerKept(s, c);
  }

  lemma SpentBetweenKept(s: State, step: Step, i: int, j: int)
    requires SingleFlight(s) && PendingIssues(s) && EndsRecorded(s) && BeginsRecorded(s) && AnswersKept(s) && Economy(s)
    requires Enabled(s, step)
    ensures SpentBetween(Next(s, step), i, j)
  {
    var r := Next(s, step);
    if IsBegin(r, i) && IsBegin(r, j) && i < j && r.history.log[i].key == r.history.log[j].key {
      LogGrows(s, step);
      if j < |s.history.log| {
        assert SpentBetween(s, i, j);
        EndStays(s, step, s.history.log[i].call);
      } else {
        LastBegin(s, step);
        EarlierIsSpent(s, step.t, i);
        EndStays(s, step, s.history.log[i].call);
        assert EndAt(s, s.history.log[i].call);
      }
    }
  }

  lemma LogGrows(s: State, step: Step)
    requires Enabled(s, step)
    ensures s.history.log <= Next(s, step).history.log
    ensures |Next(s, step).history.log| <= |s.history.log| + 1
  {
  }

  lemma LastBegin(s: State, step: Step)
    requires Enabled(s, step)
    requires IsBegin(Next(s, step), |s.history.log|)
    ensures step.First? && Enter(s.cache, s.calls[step.t].key, s.now).Lead?
    ensures Next(s, step).history.log[|s.history.log|] == Began(step.t, s.calls[step.t].key, s.now)
  {
  }

  lemma EconomyKept(s: State, step: Step)
    requires SingleFlight(s) && PendingIssues(s) && EndsRecorded(s) && BeginsRecorded(s) && AnswersKept(s) && Economy(s)
    requires Enabled(s, step)
    ensures Economy(Next(s, step))
  {
    forall i, j ensures SpentBetween(Next(s, step), i, j) { SpentBetweenKept(s, step, i, j); }
  }

  lemma MintAtBySettling(s: State, u: nat, k: string)
    requires EndsRecorded(s) && MintsRecorded(s) && NamesRecorded(s) && Enabled(s, Second(u))
    ensures MintAt(Next(s, Second(u)), k)
  {
    assert MintAt(s, k) && CarriesEnd(s, u) && NameOf(s, u);
  }

  /** A settled call does not lead again. */
  lemma SettledStays(s: State, step: Step, c: nat)
    requires PendingIssues(s) && EndsRecorded(s) && Enabled(s, step)
    requires HasEnd(s, c) && c in s.calls && !Leads(s.calls[c].pc)
    ensures c in Next(s, step).calls && Next(s, step).calls[c].key == s.calls[c].key
    ensures !Leads(Next(s, step).calls[c].pc)
  {
    assert EndAt(s, c) && PendingAt(s, c);
  }

  lemma MintAtByFirst(s: State, u: nat, k: string)
    requires PendingIssues(s) && EndsRecorded(s) && MintsRecorded(s) && Enabled(s, First(u))
    ensures MintAt(Next(s, First(u)), k)
  {
    assert MintAt(s, k);
    if k in s.cache.minted {
      var c := s.history.minter[k];
      EndStays(s, First(u), c);
      SettledStays(s, First(u), c);
    }
  }

  lemma MintAtOtherwise(s: State, step: Step, k: string)
    requires EndsRecorded(s) && MintsRecorded(s) && Enabled(s, step) && !step.Second? && !step.First?
    ensures MintAt(Next(s, step), k)
  {
    assert MintAt(s, k);
    if k in s.cache.minted { EndStays(s, step, s.history.minter[k]); }
  }

  lemma MintsRecordedKept(s: State, step: Step)
    requires PendingIssues(s) && EndsRecorded(s) && MintsRecorded(s) && NamesRecorded(s) && Enabled(s, step)
    ensures MintsRecorded(Next(s, step))
  {
    forall k ensures MintAt(Next(s, step), k) {
      match step {
        case Second(u) => MintAtBySettling(s, u, k);
        case First(u) => MintAtByFirst(s, u, k);
        case _ => MintAtOtherwise(s, step, k);
      }
    }
  }

  lemma KeptRefusalStays(s: State, step: Step, k: string)
    requires SingleFlight(s) && Exclusion(s) && k in s.cache.refused && Enabled(s, step)
    ensures k in Next(s, step).cache.refused && Next(s, step).cache.refused[k] == s.cache.refused[k]
  {
    if step.Second? { assert LeadsItsKey(s, step.t); }
  }

  lemma RefusedByStays(s: State, step: Step, k: string, c: nat)
    requires SingleFlight(s) && Exclusion(s) && PendingIssues(s) && EndsRecorded(s)
    requires RefusedBy(s, k, c) && Enabled(s, step)
    ensures RefusedBy(Next(s, step), k, c)
  {
    EndStays(s, step, c);
    SettledStays(s, step, c);
    KeptRefusalStays(s, step, k);
  }

  lemma RefusalAtBySettling(s: State, u: nat, k: string)
    requires SingleFlight(s) && Exclusion(s) && PendingIssues(s) && EndsRecorded(s)
    requires RefusalAt(s, k) && Enabled(s, Second(u))
    ensures RefusalAt(Next(s, Second(u)), k)
  {
    if k in s.cache.refused {
      var c :| RefusedBy(s, k, c);
      RefusedByStays(s, Second(u), k, c);
    } else if k in Next(s, Second(u)).cache.refused {
      assert CarriesEnd(s, u);
      assert RefusedBy(Next(s, Second(u)), k, u);
    }
  }

  lemma RefusalsRecordedKept(s: State, step: Step)
    requires SingleFlight(s) && Exclusion(s) && PendingIssues(s) && EndsRecorded(s)
    requires RefusalsRecorded(s) && Enabled(s, step)
    ensures RefusalsRecorded(Next(s, step))
  {
    forall k ensures RefusalAt(Next(s, step), k) {
      assert RefusalAt(s, k);
      if step.Second? {
        RefusalAtBySettling(s, step.t, k);
      } else if k in s.cache.refused {
        var c :| RefusedBy(s, k, c);
        RefusedByStays(s, step, k, c);
      }
    }
  }

  lemma NameOfByAnswer(s: State, u: nat, answer: Renewal.Answer, c: nat)
    requires EndsRecorded(s) && NamesRecorded(s) && Enabled(s, Answer(u, answer))
    ensures NameOf(Next(s, Answer(u, answer)), c)
  {
    assert NameOf(s, c) && EndAt(s, c);
  }

  lemma NameOfByRemembering(s: State, u: nat, c: nat)
    requires EndsRecorded(s) && NamesRecorded(s) && Enabled(s, Remember(u))
    ensures NameOf(Next(s, Remember(u)), c)
  {
    assert NameOf(s, c) && CarriesEnd(s, c);
    if HasEnd(s, c) { EndStays(s, Remember(u), c); }
  }

  lemma NameOfByFirst(s: State, u: nat, c: nat)
    requires EndsRecorded(s) && NamesRecorded(s) && Enabled(s, First(u))
    ensures NameOf(Next(s, First(u)), c)
  {
    assert NameOf(s, c) && EndAt(s, c);
    if HasEnd(s, c) { EndStays(s, First(u), c); }
  }

  lemma NameOfOtherwise(s: State, step: Step, c: nat)
    requires EndsRecorded(s) && NamesRecorded(s) && Enabled(s, step)
    requires !step.Answer? && !step.Remember? && !step.First?
    ensures NameOf(Next(s, step), c)
  {
    assert NameOf(s, c) && EndAt(s, c);
    if HasEnd(s, c) { EndStays(s, step, c); }
  }

  lemma NameAtByRemembering(s: State, u: nat, token: string)
    requires EndsRecorded(s) && NamesRecorded(s) && Enabled(s, Remember(u))
    ensures NameAt(Next(s, Remember(u)), token)
  {
    assert NameAt(s, token) && CarriesEnd(s, u) && NameOf(s, u);
    if token in s.cache.issuedFor { EndStays(s, Remember(u), s.history.namer[token]); }
    EndStays(s, Remember(u), u);
  }

  lemma NameAtOtherwise(s: State, step: Step, token: string)
    requires EndsRecorded(s) && NamesRecorded(s) && Enabled(s, step) && !step.Remember?
    ensures NameAt(Next(s, step), token)
  {
    assert NameAt(s, token);
    if token in s.cache.issuedFor { EndStays(s, step, s.history.namer[token]); }
  }

  lemma NameAtKept(s: State, step: Step, token: string)
    requires EndsRecorded(s) && NamesRecorded(s) && Enabled(s, step)
    ensures NameAt(Next(s, step), token)
  {
    if step.Remember? { NameAtByRemembering(s, step.t, token); } else { NameAtOtherwise(s, step, token); }
  }

  lemma NamesRecordedKept(s: State, step: Step)
    requires EndsRecorded(s) && NamesRecorded(s) && Enabled(s, step)
    ensures NamesRecorded(Next(s, step))
  {
    forall c ensures NameOf(Next(s, step), c) {
      match step {
        case Answer(u, answer) => NameOfByAnswer(s, u, answer, c);
        case Remember(u) => NameOfByRemembering(s, u, c);
        case First(u) => NameOfByFirst(s, u, c);
        case _ => NameOfOtherwise(s, step, c);
      }
    }
    forall token ensures NameAt(Next(s, step), token) { NameAtKept(s, step, token); }
  }

  /** A call answered from the cache. */
  lemma SourcedByFirst(s: State, u: nat, t: nat)
    requires EndsRecorded(s) && MintsRecorded(s) && TokensSourced(s)
    requires Enabled(s, First(u))
    ensures Sourced(Next(s, First(u)), t)
  {
    assert Sourced(s, t);
    if t != u {
      SourcedOfAnother(s, u, t);
    } else {
      assert MintAt(s, s.calls[u].key);
    }
  }

  /** The first critical section of one call leaves the others as they were. */
  lemma FirstLeaves(s: State, u: nat, t: nat)
    requires Enabled(s, First(u)) && t in s.calls && t != u
    ensures var r := Next(s, First(u));
            && t in r.calls && r.calls[t] == s.calls[t] && r.cache.issuedFor == s.cache.issuedFor
            && (t in r.history.source <==> t in s.history.source)
            && (t in s.history.source ==> r.history.source[t] == s.history.source[t])
  {
  }

  lemma FirstKeepsKeys(s: State, u: nat, c: nat)
    requires Enabled(s, First(u)) && c in s.calls
    ensures c in Next(s, First(u)).calls && Next(s, First(u)).calls[c].key == s.calls[c].key
  {
  }

  lemma SourcedOfAnother(s: State, u: nat, t: nat)
    requires EndsRecorded(s) && Sourced(s, t) && t != u && Enabled(s, First(u))
    ensures Sourced(Next(s, First(u)), t)
  {
    if t in s.calls {
      FirstLeaves(s, u, t);
      if s.calls[t].pc.Returned? && s.calls[t].pc.outcome.Ok? {
        FirstKeepsKeys(s, u, s.history.source[t]);
        EndStays(s, First(u), s.history.source[t]);
      }
    }
  }

  /** A waiter woken with its leader's outcome. */
  lemma SourcedByWake(s: State, u: nat, t: nat)
    requires PendingIssues(s) && EndsRecorded(s) && NamesRecorded(s) && TokensSourced(s)
    requires Enabled(s, Wake(u))
    ensures Sourced(Next(s, Wake(u)), t)
  {
    var l := s.calls[u].pc.leader;
    assert Sourced(s, t) && WaitsWell(s, u) && PendingAt(s, l) && PendingOf(s, l) && ReturnedEnd(s, l) && NameOf(s, l);
  }

  /** A leader returning its own. */
  lemma SourcedByClose(s: State, u: nat, t: nat)
    requires EndsRecorded(s) && NamesRecorded(s) && TokensSourced(s)
    requires Enabled(s, Close(u))
    ensures Sourced(Next(s, Close(u)), t)
  {
    assert Sourced(s, t) && CarriesEnd(s, u) && NameOf(s, u);
  }

  lemma SourcedOtherwise(s: State, step: Step, t: nat)
    requires EndsRecorded(s) && TokensSourced(s)
    requires Enabled(s, step) && !step.First? && !step.Wake? && !step.Close?
    ensures Sourced(Next(s, step), t)
  {
    assert Sourced(s, t);
    if t in s.history.source && HasEnd(s, s.history.source[t]) { EndStays(s, step, s.history.source[t]); }
  }

  lemma TokensSourcedKept(s: State, step: Step)
    requires PendingIssues(s) && EndsRecorded(s) && MintsRecorded(s) && NamesRecorded(s) && TokensSourced(s)
    requires Enabled(s, step)
    ensures TokensSourced(Next(s, step))
  {
    forall t ensures Sourced(Next(s, step), t) {
      match step {
        case First(u) => SourcedByFirst(s, u, t);
        case Wake(u) => SourcedByWake(s, u, t);
        case Close(u) => SourcedByClose(s, u, t);
        case _ => SourcedOtherwise(s, step, t);
      }
    }
  }

  lemma WellKeyedKept(s: State, step: Step)
    requires WellKeyed(s) && Enabled(s, step)
    ensures WellKeyed(Next(s, step))
  {
    forall t ensures KeyedByAsk(Next(s, step), t) { assert KeyedByAsk(s, t); }
  }

  /** Every step of every interleaving keeps the whole invariant. */
  lemma InvKept(s: State, step: Step)
    requires Inv(s) && Enabled(s, step)
    ensures Inv(Next(s, step))
  {
    WellKeyedKept(s, step);
    MutualExclusionKept(s, step);
    SingleFlightKept(s, step);
    ExclusionKept(s, step);
    PendingIssuesKept(s, step);
    EndsRecordedKept(s, step);
    BeginsRecordedKept(s, step);
    AnswersKeptKept(s, step);
    EconomyKept(s, step);
    MintsRecordedKept(s, step);
    RefusalsRecordedKept(s, step);
    NamesRecordedKept(s, step);
    TokensSourcedKept(s, step);
  }

  lemma InvAtStart(request: Request, now: int)
    ensures Inv(Start(request, now))
  {
  }

  /** Every reachable state. */
  lemma {:induction false} InvAlways(s: State, steps: seq<Step>)
    requires Inv(s) && Legal(s, steps)
    ensures Inv(Run(s, steps))
    decreases |steps|
  {
    if steps != [] {
      InvKept(s, steps[0]);
      InvAlways(Next(s, steps[0]), steps[1..]);
    }
  }
}
