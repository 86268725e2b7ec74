/** What callers of resolve may rely on, over every run: who issues, who waits,
    what they are handed, and that everyone returns. */
module ResolveGuarantees {
  import opened Wrappers
  import opened AskKey
  import opened Renewal
  import opened WorkContextCache
  import opened ResolveProtocol
  import opened ResolveInvariants

  /** Reachable by some interleaving from an empty cache. */
  ghost predicate Reachable(s: State, request: Request, now: int, steps: seq<Step>) {
    Legal(Start(request, now), steps) && s == Run(Start(request, now), steps)
  }

  lemma ReachableInv(s: State, request: Request, now: int, steps: seq<Step>)
    requires Reachable(s, request, now, steps)
    ensures Inv(s)
  {
    InvAtStart(request, now);
    InvAlways(Start(request, now), steps);
  }

  /** At most one issue for a key is in flight, minting names it exactly then,
      and neither it nor a kept refusal is ever beside a live token. */
  lemma OneIssuePerKey(s: State, request: Request, now: int, steps: seq<Step>, key: string)
    requires Reachable(s, request, now, steps)
    ensures forall t, u | t in s.calls && u in s.calls && Leads(s.calls[t].pc) && Leads(s.calls[u].pc)
                          && s.calls[t].key == s.calls[u].key :: t == u
    ensures key in s.cache.minting <==> exists t :: t in s.calls && Leads(s.calls[t].pc) && s.calls[t].key == key
    ensures key in s.cache.minting ==> !Live(s.cache, key, s.now) && key !in s.cache.refused
    ensures key in s.cache.refused ==> !Live(s.cache, key, s.now)
  {
    ReachableInv(s, request, now, steps);
    assert IsLed(s, key);
    forall t, u | t in s.calls && u in s.calls && Leads(s.calls[t].pc) && Leads(s.calls[u].pc)
                  && s.calls[t].key == s.calls[u].key
      ensures t == u
    {
      assert LeadsItsKey(s, t) && LeadsItsKey(s, u);
    }
    forall t | t in s.calls && Leads(s.calls[t].pc) && s.calls[t].key == key
      ensures key in s.cache.minting
    {
      assert LeadsItsKey(s, t);
    }
  }

  /** Between two issues for one key the earlier one ended, in an error other
      than a final refusal or in a token past its renewal when the later began. */
  lemma IssueEconomy(s: State, request: Request, now: int, steps: seq<Step>, i: nat, j: nat)
    requires Reachable(s, request, now, steps)
    requires i < j < |s.history.log| && s.history.log[i].Began? && s.history.log[j].Began?
    requires s.history.log[i].key == s.history.log[j].key
    ensures exists e :: i < e < j
              && s.history.log[e].Ended? && s.history.log[e].call == s.history.log[i].call
              && !Settles(s.history.log[e].answer)
              && !StillGood(s.history.log[e].answer, s.history.log[e].at, s.history.log[j].at)
  {
    ReachableInv(s, request, now, steps);
    assert SpentBetween(s, i, j);
    var c := s.history.log[i].call;
    assert EndAt(s, c);
    var e := s.history.endOf[c];
    HeldComes(s.history.log[e].answer, s.history.log[e].at, s.history.log[j].at);
    assert s.history.log[e].call == c;
  }

  // --- what the first critical section decides ---

  /** c made the ask t makes, and its issue has been answered and settled. */
  ghost predicate SettledAlike(s: State, c: nat, t: nat) {
    && c in s.calls && t in s.calls && s.calls[c].ask == s.calls[t].ask
    && HasEnd(s, c) && !Leads(s.calls[c].pc)
  }

  /** c made the ask t makes, and is between its two critical sections. */
  ghost predicate LeadsAlike(s: State, c: nat, t: nat) {
    && c in s.calls && t in s.calls && s.calls[c].ask == s.calls[t].ask && Leads(s.calls[c].pc)
  }

  /** What c was answered, and when, still answers others. */
  ghost predicate LeftUsable(s: State, c: nat)
    requires HasEnd(s, c)
  {
    var e := s.history.log[s.history.endOf[c]];
    Settles(e.answer) || StillGood(e.answer, e.at, s.now)
  }

  lemma AlikeIsOneKey(s: State, c: nat, t: nat)
    requires Inv(s) && c in s.calls && t in s.calls
    ensures s.calls[c].ask == s.calls[t].ask <==> s.calls[c].key == s.calls[t].key
  {
    assert KeyedByAsk(s, c) && KeyedByAsk(s, t);
    if s.calls[c].key == s.calls[t].key { KeyInjective(s.request, s.calls[c].ask, s.calls[t].ask); }
  }

  /** A settled answer that still answers others is what t is handed. */
  lemma UsableIsHanded(s: State, t: nat, c: nat)
    requires Inv(s) && Enabled(s, First(t)) && SettledAlike(s, c, t) && LeftUsable(s, c)
    ensures var pc, e := Next(s, First(t)).calls[t].pc, s.history.log[s.history.endOf[c]];
            pc.Returned? && Comes(e.answer, e.at, pc.outcome)
  {
    AlikeIsOneKey(s, c, t);
    var e := s.history.log[s.history.endOf[c]];
    HeldComes(e.answer, e.at, s.now);
    assert AnswerKept(s, c);
  }

  lemma LeaderIsWaitedOn(s: State, t: nat, c: nat)
    requires Inv(s) && Enabled(s, First(t)) && LeadsAlike(s, c, t)
    ensures Next(s, First(t)).calls[t].pc == Waiting(c)
  {
    AlikeIsOneKey(s, c, t);
    assert LeadsItsKey(s, c);
  }

  /** Whoever does not issue is answered by a settled call, or waits on a leader. */
  lemma NotIssuingHasCause(s: State, t: nat) returns (c: nat)
    requires Inv(s) && Enabled(s, First(t)) && !Next(s, First(t)).calls[t].pc.Issuing?
    ensures LeadsAlike(s, c, t) || (SettledAlike(s, c, t) && LeftUsable(s, c))
  {
    var key := s.calls[t].key;
    assert RefusalAt(s, key) && MintAt(s, key) && IsLed(s, key);
    if key in s.cache.refused {
      c :| RefusedBy(s, key, c);
    } else if Live(s.cache, key, s.now) {
      c := s.history.minter[key];
    } else {
      c := s.cache.minting[key];
    }
    AlikeIsOneKey(s, c, t);
    if HasEnd(s, c) {
      var e := s.history.log[s.history.endOf[c]];
      HeldComes(e.answer, e.at, s.now);
    }
  }

  /** What becomes of a call in its first critical section is decided by what was
      answered before: it waits on the call that is issuing for an equal ask, if
      one is; it is handed what a settled call with an equal ask was answered, if
      that settles the ask or is still good; and it issues exactly when there is
      neither, so after every other failure. */
  lemma WhatWasAnsweredDecides(s: State, request: Request, now: int, steps: seq<Step>, t: nat)
    requires Reachable(s, request, now, steps) && Enabled(s, First(t))
    ensures var pc := Next(s, First(t)).calls[t].pc;
      && (forall c :: LeadsAlike(s, c, t) ==> pc == Waiting(c))
      && (forall c :: SettledAlike(s, c, t) && LeftUsable(s, c) ==>
            var e := s.history.log[s.history.endOf[c]];
            pc.Returned? && Comes(e.answer, e.at, pc.outcome))
      && (pc.Issuing? <==>
            && (forall c :: !LeadsAlike(s, c, t))
            && (forall c :: SettledAlike(s, c, t) ==> !LeftUsable(s, c)))
  {
    ReachableInv(s, request, now, steps);
    forall c | LeadsAlike(s, c, t)
      ensures Next(s, First(t)).calls[t].pc == Waiting(c)
    {
      LeaderIsWaitedOn(s, t, c);
    }
    forall c | SettledAlike(s, c, t) && LeftUsable(s, c)
      ensures var pc, e := Next(s, First(t)).calls[t].pc, s.history.log[s.history.endOf[c]];
              pc.Returned? && Comes(e.answer, e.at, pc.outcome)
    {
      UsableIsHanded(s, t, c);
    }
    if !Next(s, First(t)).calls[t].pc.Issuing? {
      var c := NotIssuingHasCause(s, t);
    }
  }

  // --- a final refusal ---

  /** A call that had not gone through its first critical section, if it was there. */
  predicate NotYetIn(before: State, t: nat) {
    t in before.calls ==> before.calls[t].pc.Called? || before.calls[t].pc.InFirst?
  }

  /** It has the refusal, if it has anything. */
  predicate RefusedCall(before: State, s: State, key: string, t: nat)
    requires key in before.cache.refused
  {
    t in s.calls && NotYetIn(before, t) && s.calls[t].key == key ==>
      || s.calls[t].pc.Called? || s.calls[t].pc.InFirst?
      || s.calls[t].pc == Returned(Err(before.cache.refused[key]))
  }

  predicate NoIssueSince(before: State, s: State, key: string) {
    && |before.history.log| <= |s.history.log|
    && forall i :: |before.history.log| <= i < |s.history.log| && s.history.log[i].Began? ==>
         s.history.log[i].key != key
  }

  /** With respect to what there was in the state before: the refusal stays, no
      issue for its key began since, and whoever asked since has it, if anything. */
  ghost predicate RefusedSince(before: State, s: State, key: string) {
    && key in before.cache.refused && key in s.cache.refused
    && s.cache.refused[key] == before.cache.refused[key]
    && NoIssueSince(before, s, key)
    && forall t :: RefusedCall(before, s, key, t)
  }

  lemma NoIssueStays(before: State, s: State, key: string, step: Step)
    requires key in s.cache.refused && NoIssueSince(before, s, key) && Enabled(s, step)
    ensures NoIssueSince(before, Next(s, step), key)
  {
    LogGrows(s, step);
    var log, after := s.history.log, Next(s, step).history.log;
    assert forall i :: 0 <= i < |log| ==> after[i] == log[i];
    if |after| > |log| && after[|log|].Began? { LastBegin(s, step); }
  }

  lemma RefusedCallKept(before: State, s: State, key: string, step: Step, t: nat)
    requires RefusedSince(before, s, key) && Enabled(s, step)
    ensures RefusedCall(before, Next(s, step), key, t)
  {
    assert RefusedCall(before, s, key, t);
    if step.First? { RefusedByFirst(before, s, key, step.t, t); }
  }

  lemma RefusedByFirst(before: State, s: State, key: string, u: nat, t: nat)
    requires RefusedSince(before, s, key) && Enabled(s, First(u))
    ensures RefusedCall(before, Next(s, First(u)), key, t)
  {
    assert RefusedCall(before, s, key, t);
  }

  lemma RefusedSinceKept(before: State, s: State, key: string, step: Step)
    requires SingleFlight(s) && Exclusion(s) && RefusedSince(before, s, key) && Enabled(s, step)
    ensures RefusedSince(before, Next(s, step), key)
  {
    KeptRefusalStays(s, step, key);
    NoIssueStays(before, s, key, step);
    forall t ensures RefusedCall(before, Next(s, step), key, t) { RefusedCallKept(before, s, key, step, t); }
  }

  lemma {:induction false} RefusedSinceAlways(before: State, s: State, key: string, steps: seq<Step>)
    requires Inv(s) && RefusedSince(before, s, key) && Legal(s, steps)
    ensures RefusedSince(before, Run(s, steps), key)
    decreases |steps|
  {
    if steps != [] {
      InvKept(s, steps[0]);
      RefusedSinceKept(before, s, key, steps[0]);
      RefusedSinceAlways(before, Next(s, steps[0]), key, steps[1..]);
    }
  }

  /** After a 401 or a 403 no issue for that key ever starts again, and every call
      of resolve for it that is made later, or was made and had not been through its
      first critical section, returns that same refusal or has not returned. */
  lemma RefusalIsFinal(s: State, key: string, steps: seq<Step>)
    requires Inv(s) && key in s.cache.refused && Legal(s, steps)
    ensures var r := Run(s, steps);
      && key in r.cache.refused && r.cache.refused[key] == s.cache.refused[key]
      && |s.history.log| <= |r.history.log|
      && (forall i :: |s.history.log| <= i < |r.history.log| && r.history.log[i].Began? ==>
            r.history.log[i].key != key)
      && (forall t :: t in r.calls && NotYetIn(s, t) && r.calls[t].key == key && r.calls[t].pc.Returned? ==>
            r.calls[t].pc.outcome == Err(s.cache.refused[key]))
  {
    RefusedSinceAlways(s, s, key, steps);
    RefusedHaveIt(s, Run(s, steps), key);
  }

  lemma RefusedHaveIt(before: State, s: State, key: string)
    requires RefusedSince(before, s, key)
    ensures forall t :: t in s.calls && NotYetIn(before, t) && s.calls[t].key == key && s.calls[t].pc.Returned? ==>
              s.calls[t].pc.outcome == Err(before.cache.refused[key])
  {
    forall t | t in s.calls && NotYetIn(before, t) && s.calls[t].key == key && s.calls[t].pc.Returned?
      ensures s.calls[t].pc.outcome == Err(before.cache.refused[key])
    {
      assert RefusedCall(before, s, key, t);
    }
  }

  /** So an issue that was answered unauthenticated, permission denied, not found or
      failed precondition settles its key for the rest of the request, from its
      second critical section on. */
  lemma FinalAnswerSettlesTheKey(s: State, t: nat, steps: seq<Step>)
    requires Inv(s) && HasEnd(s, t) && t in s.calls && !Leads(s.calls[t].pc)
    requires Settles(s.history.log[s.history.endOf[t]].answer)
    requires Legal(s, steps)
    ensures var e, key, r := s.history.log[s.history.endOf[t]], s.calls[t].key, Run(s, steps);
      && |s.history.log| <= |r.history.log|
      && (forall i :: |s.history.log| <= i < |r.history.log| && r.history.log[i].Began? ==>
            r.history.log[i].key != key)
      && (forall u :: u in r.calls && NotYetIn(s, u) && r.calls[u].key == key && r.calls[u].pc.Returned? ==>
            Comes(e.answer, e.at, r.calls[u].pc.outcome))
  {
    assert AnswerKept(s, t);
    HeldComes(s.history.log[s.history.endOf[t]].answer, s.history.log[s.history.endOf[t]].at, s.now);
    RefusalIsFinal(s, s.calls[t].key, steps);
  }

  // --- a waiter ---

  /** u waits on leader, or was handed what that leader's own issue was answered. */
  ghost predicate Handed(s: State, u: nat, leader: nat) {
    && u in s.calls && leader in s.calls
    && match s.calls[u].pc
       case Waiting(l) => l == leader
       case Returned(outcome) => HasEnd(s, leader) && outcome == OutcomeOf(AnswerTo(s, leader))
       case _ => false
  }

  lemma HandedKept(s: State, step: Step, u: nat, leader: nat)
    requires PendingIssues(s) && EndsRecorded(s) && Handed(s, u, leader) && Enabled(s, step) && step != Cancel(u)
    ensures Handed(Next(s, step), u, leader)
  {
    if HasEnd(s, leader) { EndStays(s, step, leader); }
    assert PendingAt(s, leader) && PendingOf(s, leader) && ReturnedEnd(s, leader);
  }

  lemma {:induction false} ReturnedStays(s: State, steps: seq<Step>, u: nat)
    requires Legal(s, steps) && u in s.calls && s.calls[u].pc.Returned?
    ensures u in Run(s, steps).calls && Run(s, steps).calls[u] == s.calls[u]
    decreases |steps|
  {
    if steps != [] {
      assert Next(s, steps[0]).calls[u] == s.calls[u];
      ReturnedStays(Next(s, steps[0]), steps[1..], u);
    }
  }

  lemma {:induction false} HandedAlways(s: State, steps: seq<Step>, u: nat, leader: nat)
    requires Inv(s) && Handed(s, u, leader) && Legal(s, steps)
    ensures Inv(Run(s, steps)) && u in Run(s, steps).calls
    ensures Cancel(u) !in steps ==> Handed(Run(s, steps), u, leader)
    ensures Cancel(u) in steps ==> Run(s, steps).calls[u].pc == Returned(Err(Cancelled))
    decreases |steps|
  {
    if steps != [] {
      InvKept(s, steps[0]);
      assert steps == [steps[0]] + steps[1..];
      if steps[0] == Cancel(u) {
        ReturnedStays(Next(s, steps[0]), steps[1..], u);
        InvAlways(Next(s, steps[0]), steps[1..]);
      } else {
        HandedKept(s, steps[0], u, leader);
        HandedAlways(Next(s, steps[0]), steps[1..], u, leader);
      }
    }
  }

  /** A waiter returns a cancellation exactly when it was cancelled, and otherwise
      exactly what the call it first waited on was answered and returns. */
  lemma WaiterFidelity(s: State, steps: seq<Step>, u: nat, leader: nat)
    requires Inv(s) && Legal(s, steps)
    requires u in s.calls && s.calls[u].pc == Waiting(leader)
    ensures var r := Run(s, steps);
      && u in r.calls
      && (Cancel(u) in steps ==> r.calls[u].pc == Returned(Err(Cancelled)))
      && (Cancel(u) !in steps ==> r.calls[u].pc == Waiting(leader) || r.calls[u].pc.Returned?)
      && (Cancel(u) !in steps && r.calls[u].pc.Returned? ==>
            && HasEnd(r, leader)
            && var e := r.history.log[r.history.endOf[leader]];
               && e.call == leader && Comes(e.answer, e.at, r.calls[u].pc.outcome)
               && (leader in r.calls && r.calls[leader].pc.Returned? ==>
                     r.calls[leader].pc.outcome == r.calls[u].pc.outcome))
  {
    assert WaitsWell(s, u);
    HandedAlways(s, steps, u, leader);
    var r := Run(s, steps);
    assert ReturnedEnd(r, leader) && EndAt(r, leader);
    if HasEnd(r, leader) {
      HeldComes(r.history.log[r.history.endOf[leader]].answer, r.history.log[r.history.endOf[leader]].at, r.now);
    }
  }

  lemma {:induction false} EndStaysAlways(s: State, steps: seq<Step>, c: nat)
    requires Inv(s) && Legal(s, steps) && HasEnd(s, c)
    ensures var r := Run(s, steps);
            Inv(r) && HasEnd(r, c) && r.history.log[r.history.endOf[c]] == s.history.log[s.history.endOf[c]]
    decreases |steps|
  {
    if steps != [] {
      InvKept(s, steps[0]);
      EndStays(s, steps[0], c);
      EndStaysAlways(Next(s, steps[0]), steps[1..], c);
    }
  }

  /** What the authority answers an issue is what its call returns, wherever in
      whatever interleaving it does, and what every call that waits on it, then or
      later, returns unless it is cancelled: an issuance with a token and five
      seconds to live is that token, whatever else is being asked. */
  lemma AnAnswerIsHandedOn(s: State, request: Request, now: int, before: seq<Step>,
                           t: nat, answer: Renewal.Answer, steps: seq<Step>, u: nat, more: seq<Step>)
    requires Reachable(s, request, now, before)
    requires t in s.calls && s.calls[t].pc.Issuing?
    requires Legal(Next(s, Answer(t, answer)), steps)
    requires Legal(Run(Next(s, Answer(t, answer)), steps), more)
    ensures var m := Run(Next(s, Answer(t, answer)), steps);
      && t in m.calls && (m.calls[t].pc.Returned? ==> Comes(answer, s.now, m.calls[t].pc.outcome))
      && (u in m.calls && m.calls[u].pc == Waiting(t) ==>
            && u in Run(m, more).calls
            && var pc := Run(m, more).calls[u].pc;
               if Cancel(u) in more then pc == Returned(Err(Cancelled))
               else pc == Waiting(t) || (pc.Returned? && Comes(answer, s.now, pc.outcome)))
  {
    ReachableInv(s, request, now, before);
    var a := Next(s, Answer(t, answer));
    InvKept(s, Answer(t, answer));
    assert HasEnd(a, t) && a.history.log[a.history.endOf[t]] == Ended(t, s.calls[t].key, s.now, answer);
    EndStaysAlways(a, steps, t);
    var m := Run(a, steps);
    HeldComes(answer, s.now, s.now);
    assert EndAt(m, t) && ReturnedEnd(m, t);
    EndStaysAlways(m, more, t);
    if u in m.calls && m.calls[u].pc == Waiting(t) { WaiterFidelity(m, more, u, t); }
  }

  /** A pending issue's fields are written once, and a closed one never changes. */
  lemma {:induction false} FieldsAreWrittenOnce(s: State, steps: seq<Step>, p: nat)
    requires Inv(s) && Legal(s, steps) && p in s.pending && s.pending[p].fields.Some?
    ensures var r := Run(s, steps);
            && p in r.pending && r.pending[p].fields == s.pending[p].fields
            && (s.pending[p].closed ==> r.pending[p].closed)
    decreases |steps|
  {
    if steps != [] {
      InvKept(s, steps[0]);
      FieldsStay(s, steps[0], p);
      FieldsAreWrittenOnce(Next(s, steps[0]), steps[1..], p);
    }
  }

  lemma FieldsStay(s: State, step: Step, p: nat)
    requires PendingIssues(s) && Enabled(s, step) && p in s.pending && s.pending[p].fields.Some?
    ensures p in Next(s, step).pending && Next(s, step).pending[p].fields == s.pending[p].fields
    ensures s.pending[p].closed ==> Next(s, step).pending[p].closed
  {
    assert PendingAt(s, p) && PendingOf(s, p);
  }

  // --- progress ---

  /** A step of the program itself: not a new call, the clock, or a cancellation. */
  predicate Program(step: Step) {
    !step.Invoke? && !step.Tick? && !step.Cancel?
  }

  /** While the mutex is held, its holder can leave its section. */
  lemma HolderMoves(s: State) returns (step: Step)
    requires MutualExclusion(s) && s.holder.Some?
    ensures Program(step) && Enabled(s, step)
  {
    var u := s.holder.value;
    match s.calls[u].pc {
      case InFirst => step := First(u);
      case InRemember(_, _) => step := Remember(u);
      case InSecond(_) => step := Second(u);
    }
  }

  /** With the mutex free, a leader that has not returned can move, whatever the
      authority answers it. */
  lemma LeaderMoves(s: State, u: nat, answer: Renewal.Answer) returns (step: Step)
    requires MutualExclusion(s) && PendingIssues(s) && s.holder == None
    requires u in s.calls && (Leads(s.calls[u].pc) || s.calls[u].pc.Closing?)
    ensures Program(step) && Enabled(s, step)
  {
    assert PendingOf(s, u);
    match s.calls[u].pc {
      case Issuing => step := Answer(u, answer);
      case WantRemember(_, _) => step := LockRemember(u);
      case HasAnswer(_) => step := Write(u);
      case Written(_) => step := LockSecond(u);
      case Closing(_) => step := Close(u);
    }
  }

  /** If issues finish, no reachable state is stuck: while any call has not
      returned, some call can take a step of the program. */
  lemma NeverStuck(s: State, t: nat, answer: Renewal.Answer) returns (step: Step)
    requires Inv(s) && t in s.calls && !s.calls[t].pc.Returned?
    ensures Program(step) && Enabled(s, step)
  {
    if s.holder.Some? {
      step := HolderMoves(s);
    } else {
      match s.calls[t].pc {
        case Called => step := LockFirst(t);
        case Waiting(l) =>
          assert WaitsWell(s, t) && PendingAt(s, l);
          if s.calls[l].pc.Returned? { step := Wake(t); } else { step := LeaderMoves(s, l, answer); }
        case _ => step := LeaderMoves(s, t, answer);
      }
    }
  }

  /** How many steps of its own a call may still take. */
  function Rank(pc: Pc): nat {
    match pc
    case Called => 10
    case InFirst => 9
    case Waiting(_) => 1
    case Issuing => 8
    case WantRemember(_, _) => 7
    case InRemember(_, _) => 6
    case HasAnswer(_) => 5
    case Written(_) => 4
    case InSecond(_) => 3
    case Closing(_) => 2
    case Returned(_) => 0
  }

  ghost function Sum(calls: map<nat, Call>): nat
    decreases |calls|
  {
    if calls == map[] then 0
    else
      var t :| t in calls;
      Rank(calls[t].pc) + Sum(calls - {t})
  }

  lemma {:induction false} SumWithout(calls: map<nat, Call>, t: nat)
    requires t in calls
    ensures Sum(calls) == Rank(calls[t].pc) + Sum(calls - {t})
    decreases |calls|
  {
    var u :| u in calls && Sum(calls) == Rank(calls[u].pc) + Sum(calls - {u});
    if u != t {
      SumWithout(calls - {u}, t);
      SumWithout(calls - {t}, u);
      assert calls - {u} - {t} == calls - {t} - {u};
    }
  }

  lemma MoveFalls(calls: map<nat, Call>, t: nat, call: Call)
    requires t in calls && Rank(call.pc) < Rank(calls[t].pc)
    ensures Sum(calls[t := call]) < Sum(calls)
  {
    SumWithout(calls, t);
    SumWithout(calls[t := call], t);
    assert calls[t := call] - {t} == calls - {t};
  }

  /** A step of the program, or a cancellation, takes its call nearer its return. */
  lemma StepFalls(s: State, step: Step)
    requires Enabled(s, step) && (Program(step) || step.Cancel?)
    ensures Sum(Next(s, step).calls) < Sum(s.calls)
  {
    var t := step.t;
    var moved := Next(s, step).calls[t];
    assert Rank(moved.pc) < Rank(s.calls[t].pc);
    assert Next(s, step).calls == s.calls[t := moved];
    MoveFalls(s.calls, t, moved);
  }

  /** With no new calls, a run is no longer than the measure it starts with, so
      it comes to a state where nothing but the clock can move; there everyone
      has returned. */
  lemma {:induction false} EveryoneReturns(s: State, steps: seq<Step>)
    requires Inv(s) && Legal(s, steps)
    requires forall i :: 0 <= i < |steps| ==> Program(steps[i]) || steps[i].Cancel?
    ensures Inv(Run(s, steps)) && |steps| + Sum(Run(s, steps).calls) <= Sum(s.calls)
    ensures (forall step :: Program(step) ==> !Enabled(Run(s, steps), step)) ==>
              forall t :: t in Run(s, steps).calls ==> Run(s, steps).calls[t].pc.Returned?
    decreases |steps|
  {
    if steps != [] {
      InvKept(s, steps[0]);
      StepFalls(s, steps[0]);
      EveryoneReturns(Next(s, steps[0]), steps[1..]);
    } else {
      forall t | t in s.calls && !s.calls[t].pc.Returned?
        ensures exists step :: Program(step) && Enabled(s, step)
      {
        var step := NeverStuck(s, t, Unreadable(""));
      }
    }
  }

  // --- the token a caller gets ---

  /** The token any call returns was issued by the authority for an ask equal to
      the caller's own, and whom it is for is what the authority said of that token. */
  lemma TokenIsForTheAsk(s: State, request: Request, now: int, steps: seq<Step>, t: nat)
    requires Reachable(s, request, now, steps)
    requires t in s.calls && s.calls[t].pc.Returned? && s.calls[t].pc.outcome.Ok?
    ensures var token := s.calls[t].pc.outcome.value;
            && token != ""
            && (exists e :: 0 <= e < |s.history.log| && s.history.log[e].Ended?
                  && s.history.log[e].call in s.calls && s.calls[s.history.log[e].call].ask == s.calls[t].ask
                  && s.history.log[e].answer.Issuance? && s.history.log[e].answer.token == token)
            && token in s.cache.issuedFor
            && (exists e :: 0 <= e < |s.history.log| && s.history.log[e].Ended?
                  && s.history.log[e].answer.Issuance? && s.history.log[e].answer.token == token
                  && s.history.log[e].answer.principals == s.cache.issuedFor[token])
  {
    ReachableInv(s, request, now, steps);
    assert Sourced(s, t);
    var token := s.calls[t].pc.outcome.value;
    var c := s.history.source[t];
    RequestStays(Start(request, now), steps);
    assert KeyedByAsk(s, t) && KeyedByAsk(s, c);
    KeyInjective(s.request, s.calls[c].ask, s.calls[t].ask);
    assert EndAt(s, c) && NameAt(s, token);
    var e, f := s.history.endOf[c], s.history.endOf[s.history.namer[token]];
    HeldComes(s.history.log[e].answer, s.history.log[e].at, s.now);
    assert s.history.log[e].call == c;
    assert s.history.log[f].answer.token == token;
  }

  lemma {:induction false} RequestStays(s: State, steps: seq<Step>)
    requires Legal(s, steps)
    ensures Run(s, steps).request == s.request
    decreases |steps|
  {
    if steps != [] {
      assert Next(s, steps[0]).request == s.request;
      RequestStays(Next(s, steps[0]), steps[1..]);
    }
  }

  /** When the authority never answers one token for two different principals,
      the principals reported for a returned token are those of its own issue. */
  lemma PrincipalsAreTheAnswer(s: State, request: Request, now: int, steps: seq<Step>, t: nat)
    requires Reachable(s, request, now, steps)
    requires t in s.calls && s.calls[t].pc.Returned? && s.calls[t].pc.outcome.Ok?
    requires forall e, f | 0 <= e < |s.history.log| && 0 <= f < |s.history.log|
                           && s.history.log[e].Ended? && s.history.log[f].Ended?
                           && s.history.log[e].answer.Issuance? && s.history.log[f].answer.Issuance?
                           && s.history.log[e].answer.token == s.history.log[f].answer.token
               :: s.history.log[e].answer.principals == s.history.log[f].answer.principals
    ensures exists e :: 0 <= e < |s.history.log| && s.history.log[e].Ended?
              && s.history.log[e].call in s.calls && s.calls[s.history.log[e].call].ask == s.calls[t].ask
              && s.history.log[e].answer.Issuance? && s.history.log[e].answer.token == s.calls[t].pc.outcome.value
              && s.calls[t].pc.outcome.value in s.cache.issuedFor
              && s.cache.issuedFor[s.calls[t].pc.outcome.value] == s.history.log[e].answer.principals
  {
    TokenIsForTheAsk(s, request, now, steps, t);
  }

  /** A token answered from the cache was accepted earlier in the same run for an
      ask equal to the caller's, and has more than its renewal lead, so more than
      two and a half seconds, still to run. */
  lemma ReusedTokenOutlivesTheCall(s: State, request: Request, now: int, steps: seq<Step>, t: nat, token: string)
    requires Reachable(s, request, now, steps)
    requires Enabled(s, First(t)) && Enter(s.cache, s.calls[t].key, s.now) == Answered(Ok(token))
    ensures Next(s, First(t)).calls[t].pc == Returned(Ok(token))
    ensures exists e :: 0 <= e < |s.history.log|
              && s.history.log[e].Ended? && s.history.log[e].call in s.calls
              && s.calls[s.history.log[e].call].ask == s.calls[t].ask
              && s.history.log[e].answer.Issuance? && s.history.log[e].answer.token == token
              && StillGood(s.history.log[e].answer, s.history.log[e].at, s.now)
              && 2 * (s.history.log[e].answer.expiresAt - s.now) > 5_000_000_000
  {
    ReachableInv(s, request, now, steps);
    assert MintAt(s, s.calls[t].key);
    var c := s.history.minter[s.calls[t].key];
    assert EndAt(s, c) && KeyedByAsk(s, t) && KeyedByAsk(s, c);
    KeyInjective(s.request, s.calls[c].ask, s.calls[t].ask);
    var e := s.history.endOf[c];
    HeldComes(s.history.log[e].answer, s.history.log[e].at, s.now);
    StillGoodOutlives(s.history.log[e].answer, s.history.log[e].at, s.now);
    assert s.history.log[e].call == c;
  }
}
