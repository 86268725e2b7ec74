/** One relayed stream: the loop that receives and sends, racing the timer that
    bounds the module's first answer, the stream's own duration, the module and
    the page. Every shared access is a step of its own. */
module StreamRelay {
  import opened Wrappers
  import opened MaskLaws
  import P = Passthrough

  /** The declared response fields, or the whole response. */
  type Allowed = Option<set<Path>>

  function Answer(allowed: Allowed, m: Message): Message {
    match allowed
    case None => m
    case Some(declared) => Filter(declared, m)
  }

  function Answers(allowed: Allowed, ms: seq<Message>): seq<Message> {
    seq(|ms|, i requires 0 <= i < |ms| => Answer(allowed, ms[i]))
  }

  /** What the module would send on this call, and what may reach the page of it. */
  datatype Stream = Stream(messages: seq<Message>, allowed: Allowed)

  /** How a stream operation ends, when it does: the module's end of stream, or a
      failure, which a cancelled or expired context is too. */
  datatype End = Eof | Failure

  datatype Verdict =
    | IssueFailed       // the authority issued nothing: no stream was opened
    | PageGone          // a message could not be handed to the page
    | Whole             // nil: the stream ended
    | NoFirstAnswer     // the module did not start its stream in time
    | DurationReached
    | ModuleRefused

  /** Where the loop stands. */
  datatype Pc =
    | Issuing
    | Opening                        // NewStream, SendMsg, CloseSend
    | Receiving
    | Received(end: Option<End>)     // RecvMsg has returned; Stop is next
    | Checking(end: Option<End>)     // and Stop too; the flag is read next
    | Sending
    | Deciding(end: Option<End>)
    | Returned(verdict: Verdict)

  /** The timer: Stop prevents a callback only while it has not started. The
      callback sets the flag, and then cancels the stream. */
  datatype Timer = Unset | Armed | Stopped | Started | Stored | Finished

  /** taken counts the messages received, in hand the last of them when it is not
      yet sent; firstLate is the flag as it stood when the first receive, or the
      opening, came back. */
  datatype State = State(
    pc: Pc, timer: Timer, late: bool, expired: bool, taken: nat, delivered: seq<Message>, firstLate: Option<bool>)

  const START := State(Issuing, Unset, false, false, 0, [], None)

  datatype Step =
    | Issue(ok: bool)
    | Open(ok: bool)
    | Receive(end: Option<End>)
    | Stop
    | ReadFlag
    | Send(ok: bool)
    | Decide
    | Fire | StoreFlag | CancelStream   // the callback's own
    | Expire                            // the stream's duration passes, issuing included

  predicate InHand(s: State) {
    || (s.pc.Received? && s.pc.end == None) || (s.pc.Checking? && s.pc.end == None) || s.pc == Sending
    || (s.pc.Deciding? && s.pc.end == None)
  }

  predicate Enabled(st: Stream, s: State, step: Step) {
    match step
    case Issue(_) => s.pc == Issuing
    case Open(_) => s.pc == Opening
    case Receive(end) =>
      && s.pc == Receiving
      && (end == None ==> s.taken < |st.messages|)
      && (end == Some(Eof) ==> s.taken == |st.messages|)
    case Stop => s.pc.Received?
    case ReadFlag => s.pc.Checking?
    case Send(_) => s.pc == Sending && 0 < s.taken <= |st.messages|
    case Decide => s.pc.Deciding?
    case Fire => s.timer == Armed
    case StoreFlag => s.timer == Started
    case CancelStream => s.timer == Stored
    case Expire => !s.expired
  }

  function FirstLate(s: State): Option<bool> {
    if s.firstLate == None then Some(s.late) else s.firstLate
  }

  function VerdictOf(s: State, end: Option<End>): Verdict {
    if s.late then NoFirstAnswer
    else if end == Some(Eof) then Whole
    else if s.expired then DurationReached
    else ModuleRefused
  }

  function Next(st: Stream, s: State, step: Step): State
    requires Enabled(st, s, step)
  {
    match step
    case Issue(ok) => if ok then s.(pc := Opening, timer := Armed) else s.(pc := Returned(IssueFailed))
    case Open(ok) =>
      if ok then s.(pc := Receiving) else s.(pc := Deciding(Some(Failure)), firstLate := FirstLate(s))
    case Receive(end) =>
      s.(pc := Received(end), firstLate := FirstLate(s), taken := if end == None then s.taken + 1 else s.taken)
    case Stop => s.(pc := Checking(s.pc.end), timer := if s.timer == Armed then Stopped else s.timer)
    case ReadFlag => if s.pc.end.Some? || s.late then s.(pc := Deciding(s.pc.end)) else s.(pc := Sending)
    case Send(ok) =>
      if ok then s.(pc := Receiving, delivered := s.delivered + [Answer(st.allowed, st.messages[s.taken - 1])])
      else s.(pc := Returned(PageGone))
    case Decide => s.(pc := Returned(VerdictOf(s, s.pc.end)))
    case Fire => s.(timer := Started)
    case StoreFlag => s.(timer := Stored, late := true)
    case CancelStream => s.(timer := Finished)
    case Expire => s.(expired := true)
  }

  predicate Legal(st: Stream, s: State, steps: seq<Step>)
    decreases |steps|
  {
    steps == [] || (Enabled(st, s, steps[0]) && Legal(st, Next(st, s, steps[0]), steps[1..]))
  }

  function Run(st: Stream, s: State, steps: seq<Step>): State
    requires Legal(st, s, steps)
    decreases |steps|
  {
    if steps == [] then s else Run(st, Next(st, s, steps[0]), steps[1..])
  }

  // --- what every run keeps ---

  /** The page has the messages taken, in order and masked, all of them but the
      one in hand. */
  predicate Conserved(st: Stream, s: State) {
    && s.taken <= |st.messages|
    && (InHand(s) ==> s.taken > 0)
    && (s.pc.Returned? && s.pc.verdict.PageGone? ==> s.taken > 0)
    && s.delivered <= Answers(st.allowed, st.messages)
    && (InHand(s) || s.pc == Returned(PageGone) ==> |s.delivered| == s.taken - 1)
    && (s.pc == Issuing || s.pc == Opening ==> s.taken == 0)
    && (s.pc == Receiving ==> |s.delivered| == s.taken)
    && |s.delivered| <= s.taken <= |s.delivered| + 1
  }

  /** The end of the stream is seen only with every message taken and sent. */
  predicate EndsWhole(st: Stream, s: State) {
    && ((s.pc.Received? || s.pc.Checking? || s.pc.Deciding?) && s.pc.end.Some? ==> |s.delivered| == s.taken)
    && ((s.pc.Received? || s.pc.Checking? || s.pc.Deciding?) && s.pc.end == Some(Eof) ==> s.taken == |st.messages|)
    && (s.pc == Returned(Whole) ==> s.delivered == Answers(st.allowed, st.messages) && !(s.firstLate == Some(true)))
  }

  /** The flag is the callback's alone, and stays. */
  predicate FlagIsTheCallbacks(s: State) {
    && (s.late <==> s.timer == Stored || s.timer == Finished)
    && (s.timer == Unset <==> s.pc == Issuing || s.pc == Returned(IssueFailed))
    && (s.firstLate == Some(true) ==> s.late)
    && (s.firstLate == None <==>
          s.pc == Issuing || s.pc == Opening || s.pc == Returned(IssueFailed) || (s.pc == Receiving && s.taken == 0))
    && (s.pc == Returned(NoFirstAnswer) ==> s.late)
  }

  /** Once the first receive has been checked the timer is not armed: it was
      stopped, or its callback had started. */
  predicate StoppedOrStarted(s: State) {
    && (s.pc.Checking? || s.pc == Sending || (s.pc == Receiving && s.taken > 0) ==> s.timer != Armed)
    && (s.delivered != [] ==> s.timer != Armed)
  }

  /** Late before the first answer, nothing is sent. */
  predicate LateSendsNothing(s: State) {
    s.firstLate == Some(true) ==>
      && s.delivered == []
      && (s.pc.Received? || s.pc.Checking? || s.pc.Deciding? || s.pc == Returned(NoFirstAnswer))
  }

  ghost predicate Inv(st: Stream, s: State) {
    Conserved(st, s) && EndsWhole(st, s) && FlagIsTheCallbacks(s) && StoppedOrStarted(s) && LateSendsNothing(s)
  }

  lemma ConservedKept(st: Stream, s: State, step: Step)
    requires Conserved(st, s) && Enabled(st, s, step)
    ensures Conserved(st, Next(st, s, step))
  {
    if step.Send? && step.ok {
      var all := Answers(st.allowed, st.messages);
      assert all[s.taken - 1] == Answer(st.allowed, st.messages[s.taken - 1]);
      assert s.delivered == all[..s.taken - 1];
      assert all[..s.taken] == all[..s.taken - 1] + [all[s.taken - 1]];
    }
  }

  lemma EndsWholeKept(st: Stream, s: State, step: Step)
    requires Conserved(st, s) && EndsWhole(st, s) && FlagIsTheCallbacks(s) && Enabled(st, s, step)
    ensures EndsWhole(st, Next(st, s, step))
  {
  }

  lemma FlagKept(st: Stream, s: State, step: Step)
    requires Conserved(st, s) && FlagIsTheCallbacks(s) && Enabled(st, s, step)
    ensures FlagIsTheCallbacks(Next(st, s, step))
  {
  }

  lemma TimerKept(st: Stream, s: State, step: Step)
    requires Inv(st, s) && Enabled(st, s, step)
    ensures StoppedOrStarted(Next(st, s, step)) && LateSendsNothing(Next(st, s, step))
  {
  }

  lemma InvKept(st: Stream, s: State, step: Step)
    requires Inv(st, s) && Enabled(st, s, step)
    ensures Inv(st, Next(st, s, step))
  {
    ConservedKept(st, s, step);
    EndsWholeKept(st, s, step);
    FlagKept(st, s, step);
    TimerKept(st, s, step);
  }

  lemma {:induction false} InvAlways(st: Stream, s: State, steps: seq<Step>)
    requires Inv(st, s) && Legal(st, s, steps)
    ensures Inv(st, Run(st, s, steps))
    decreases |steps|
  {
    if steps != [] {
      InvKept(st, s, steps[0]);
      InvAlways(st, Next(st, s, steps[0]), steps[1..]);
    }
  }

  ghost predicate Reachable(st: Stream, s: State) {
    exists steps :: Legal(st, START, steps) && Run(st, START, steps) == s
  }

  lemma ReachableIsSound(st: Stream, s: State)
    requires Reachable(st, s)
    ensures Inv(st, s)
  {
    var steps :| Legal(st, START, steps) && Run(st, START, steps) == s;
    InvAlways(st, START, steps);
  }

  // --- what the page is told ---

  /** What reached the page is, at every moment of every run, the first so many of
      the module's messages, in order, each masked, and one message at most is
      taken and not yet there. */
  lemma PageSeesAMaskedPrefix(st: Stream, s: State)
    requires Reachable(st, s)
    ensures |s.delivered| <= s.taken <= |s.delivered| + 1 && s.taken <= |st.messages|
    ensures forall i :: 0 <= i < |s.delivered| ==>
              s.delivered[i] == match st.allowed
                                case None => st.messages[i]
                                case Some(declared) => Filter(declared, st.messages[i])
  {
    ReachableIsSound(st, s);
    assert forall i :: 0 <= i < |s.delivered| ==> s.delivered[i] == Answers(st.allowed, st.messages)[i];
  }

  /** A stream is reported whole only when it is: every message the module sent
      has reached the page, and the flag was down when the first one came. */
  lemma WholeIsWhole(st: Stream, s: State)
    requires Reachable(st, s) && s.pc == Returned(Whole)
    ensures s.delivered == Answers(st.allowed, st.messages) && s.firstLate == Some(false)
  {
    ReachableIsSound(st, s);
    assert s.firstLate.Some? && !s.firstLate.value;
  }

  /** If the callback had set the flag when the first receive came back, or the
      opening failed, nothing is ever sent, and a stream that returns says so. */
  lemma LateBeforeTheFirstAnswer(st: Stream, s: State)
    requires Reachable(st, s) && s.firstLate == Some(true)
    ensures s.delivered == [] && (s.pc.Returned? ==> s.pc.verdict == NoFirstAnswer)
  {
    ReachableIsSound(st, s);
  }

  /** Two messages that no page can be shown a difference between. */
  ghost predicate Alike(allowed: Allowed, one: Message, other: Message) {
    match allowed
    case None => one == other
    case Some(declared) => AlikeWherePassing(declared, one, other)
  }

  /** Messages that differ only in what no declared path runs to are answered alike. */
  lemma AnswersTellApartOnlyWhatIsDeclared(allowed: Allowed, one: seq<Message>, other: seq<Message>)
    requires |one| == |other|
    ensures Answers(allowed, one) == Answers(allowed, other) <==>
            forall i :: 0 <= i < |one| ==> Alike(allowed, one[i], other[i])
  {
    var a, b := Answers(allowed, one), Answers(allowed, other);
    forall i | 0 <= i < |one| ensures a[i] == b[i] <==> Alike(allowed, one[i], other[i]) {
      if allowed.Some? { FilterTellsOnlyWhatPasses(allowed.value, one[i], other[i]); }
    }
    if forall i :: 0 <= i < |one| ==> Alike(allowed, one[i], other[i]) {
      assert forall i :: 0 <= i < |a| ==> a[i] == b[i];
    }
  }

  // --- steps added to a run ---

  lemma {:induction false} OneMoreStep(st: Stream, s: State, steps: seq<Step>, step: Step)
    requires Legal(st, s, steps) && Enabled(st, Run(st, s, steps), step)
    ensures Legal(st, s, steps + [step]) && Run(st, s, steps + [step]) == Next(st, Run(st, s, steps), step)
    decreases |steps|
  {
    if steps == [] {
      assert [step][1..] == [];
    } else {
      OneMoreStep(st, Next(st, s, steps[0]), steps[1..], step);
      assert (steps + [step])[1..] == steps[1..] + [step];
    }
  }

  /** A run is its parts, one after the other. */
  lemma {:induction false} RunOfParts(st: Stream, s: State, pre: seq<Step>, post: seq<Step>)
    ensures Legal(st, s, pre + post) <==> Legal(st, s, pre) && Legal(st, Run(st, s, pre), post)
    ensures Legal(st, s, pre + post) ==> Run(st, s, pre + post) == Run(st, Run(st, s, pre), post)
    decreases |pre|
  {
    if pre == [] {
      assert pre + post == post;
    } else {
      assert (pre + post)[1..] == pre[1..] + post;
      if Enabled(st, s, pre[0]) { RunOfParts(st, Next(st, s, pre[0]), pre[1..], post); }
    }
  }

  // --- which verdict a run ends in ---

  /** What the last receive came back with, or the opening where that failed. */
  function LastEnd(steps: seq<Step>): Option<End> {
    if steps == [] then None
    else match steps[|steps| - 1]
         case Receive(end) => end
         case Open(ok) => if ok then None else Some(Failure)
         case _ => LastEnd(steps[..|steps| - 1])
  }

  /** What the state holds of the steps that led to it. */
  predicate Remembers(s: State, steps: seq<Step>) {
    && (s.late <==> StoreFlag in steps)
    && (s.expired <==> Expire in steps)
    && (s.pc == Returned(IssueFailed) <==> Issue(false) in steps)
    && (s.pc == Returned(PageGone) <==> Send(false) in steps)
    && (s.pc.Received? || s.pc.Checking? || s.pc.Deciding? ==> s.pc.end == LastEnd(steps))
    && (s.pc.Deciding? && s.pc.end == None ==> s.late)
  }

  lemma RemembersOneMore(st: Stream, s: State, steps: seq<Step>, step: Step)
    requires Remembers(s, steps) && Enabled(st, s, step)
    ensures Remembers(Next(st, s, step), steps + [step])
  {
    assert (steps + [step])[..|steps|] == steps;
  }

  lemma {:induction false} RunRemembers(st: Stream, steps: seq<Step>)
    requires Legal(st, START, steps)
    ensures Remembers(Run(st, START, steps), steps)
  {
    if steps != [] {
      var pre, last := steps[..|steps| - 1], steps[|steps| - 1];
      assert steps == pre + [last];
      RunOfParts(st, START, pre, [last]);
      RunRemembers(st, pre);
      RemembersOneMore(st, Run(st, START, pre), pre, last);
      assert [last][1..] == [];
    }
  }

  /** The verdict v, reached by deciding after these steps. */
  predicate Decided(pre: seq<Step>, v: Verdict) {
    && (v == NoFirstAnswer <==> StoreFlag in pre)
    && (v == Whole <==> StoreFlag !in pre && LastEnd(pre) == Some(Eof))
    && (v == DurationReached <==> StoreFlag !in pre && LastEnd(pre) == Some(Failure) && Expire in pre)
    && (v == ModuleRefused <==> StoreFlag !in pre && LastEnd(pre) == Some(Failure) && Expire !in pre)
  }

  predicate DecidedAt(steps: seq<Step>, d: nat, v: Verdict) {
    d < |steps| && steps[d] == Decide && Decided(steps[..d], v)
  }

  /** The last step of a run that had not returned before it. */
  lemma ReturnsNow(st: Stream, s: State, pre: seq<Step>, step: Step, v: Verdict)
    requires Remembers(s, pre) && Enabled(st, s, step)
    requires !s.pc.Returned? && Next(st, s, step).pc == Returned(v)
    ensures match step
            case Issue(ok) => !ok && v == IssueFailed
            case Send(ok) => !ok && v == PageGone
            case Decide => Decided(pre, v)
            case _ => false
  {
    if s.pc.Deciding? {
      match s.pc.end {
        case None =>
        case Some(end) => assert end == Eof || end == Failure;
      }
    }
  }

  /** Every run that has returned: without an issue exactly if the authority gave
      none, with no word to the page exactly if a message could not be handed to it;
      else it decided, at some step. It reports no first answer exactly if the flag
      was set by then; and with the flag down it reports a whole stream exactly if
      the last receive gave the end of the stream, the duration exactly if that was a
      failure and the duration had passed, and the module's refusal if it had not. */
  lemma {:induction false} VerdictIsWhatHappened(st: Stream, steps: seq<Step>, v: Verdict)
    requires Legal(st, START, steps) && Run(st, START, steps).pc == Returned(v)
    ensures v == IssueFailed <==> Issue(false) in steps
    ensures v == PageGone <==> Send(false) in steps
    ensures v != IssueFailed && v != PageGone ==> exists d: nat :: DecidedAt(steps, d, v)
  {
    RunRemembers(st, steps);
    assert steps != [];
    var pre, last := steps[..|steps| - 1], steps[|steps| - 1];
    assert steps == pre + [last];
    RunOfParts(st, START, pre, [last]);
    assert [last][1..] == [];
    var s := Run(st, START, pre);
    RunRemembers(st, pre);
    if s.pc.Returned? {
      VerdictIsWhatHappened(st, pre, v);
      if d: nat :| DecidedAt(pre, d, v) {
        assert steps[..d] == pre[..d];
        assert DecidedAt(steps, d, v);
      }
    } else {
      ReturnsNow(st, s, pre, last, v);
      assert steps[..|pre|] == pre;
      assert last == Decide ==> DecidedAt(steps, |pre|, v);
    }
  }

  // --- what whole runs tell the page ---

  /** No run tells one module's stream from the other's: the same steps can be
      taken, and the page is sent and told the same. */
  ghost predicate ShowAlike(one: Stream, other: Stream) {
    forall steps ::
      && (Legal(one, START, steps) <==> Legal(other, START, steps))
      && (Legal(one, START, steps) && Legal(other, START, steps) ==> SameToThePage(one, other, steps))
  }

  predicate SameToThePage(one: Stream, other: Stream, steps: seq<Step>)
    requires Legal(one, START, steps) && Legal(other, START, steps)
  {
    var s, t := Run(one, START, steps), Run(other, START, steps);
    s.delivered == t.delivered && s.pc == t.pc
  }

  lemma {:induction false} AlikeGoAlike(one: Stream, other: Stream, s: State, steps: seq<Step>)
    requires |one.messages| == |other.messages|
    requires Answers(one.allowed, one.messages) == Answers(other.allowed, other.messages)
    ensures Legal(one, s, steps) <==> Legal(other, s, steps)
    ensures Legal(one, s, steps) ==> Run(one, s, steps) == Run(other, s, steps)
    decreases |steps|
  {
    if steps != [] && Enabled(one, s, steps[0]) {
      if steps[0] == Send(true) {
        assert Answers(one.allowed, one.messages)[s.taken - 1] == Answers(other.allowed, other.messages)[s.taken - 1];
      }
      AlikeGoAlike(one, other, Next(one, s, steps[0]), steps[1..]);
    }
  }

  /** The first n messages delivered in time, and the loop at its next receive. */
  function Delivering(st: Stream, n: nat): State
    requires n <= |st.messages|
  {
    var sent := Answers(st.allowed, st.messages)[..n];
    if n == 0 then Before(Receiving, Armed) else State(Receiving, Stopped, false, false, n, sent, Some(false))
  }

  function OneMessage(): seq<Step> { [Receive(None)] + ([Stop] + ([ReadFlag] + ([Send(true)] + []))) }

  function Deliveries(n: nat): seq<Step> {
    if n == 0 then [Issue(true), Open(true)] else Deliveries(n - 1) + OneMessage()
  }

  lemma {:induction false} DeliversSoMany(st: Stream, n: nat)
    requires n <= |st.messages|
    ensures Legal(st, START, Deliveries(n)) && Run(st, START, Deliveries(n)) == Delivering(st, n)
  {
    if n == 0 {
      TwoSteps(st);
    } else {
      DeliversSoMany(st, n - 1);
      DeliversOneMore(st, n);
      RunOfParts(st, START, Deliveries(n - 1), OneMessage());
    }
  }

  lemma TwoSteps(st: Stream)
    ensures Legal(st, START, Deliveries(0)) && Run(st, START, Deliveries(0)) == Delivering(st, 0)
  {
    assert Legal(st, START, []) && [Issue(true)] == [] + [Issue(true)];
    OneMoreStep(st, START, [], Issue(true));
    OneMoreStep(st, START, [Issue(true)], Open(true));
    assert Deliveries(0) == [Issue(true)] + [Open(true)];
  }

  lemma DeliversOneMore(st: Stream, n: nat)
    requires 0 < n <= |st.messages|
    ensures var s := Delivering(st, n - 1); Legal(st, s, OneMessage()) && Run(st, s, OneMessage()) == Delivering(st, n)
  {
    var all := Answers(st.allowed, st.messages);
    assert all[..n] == all[..n - 1] + [all[n - 1]];
    DeliversNext(st, Delivering(st, n - 1));
  }

  lemma DeliversNext(st: Stream, s: State)
    requires s.pc == Receiving && (s.timer == Armed || s.timer == Stopped) && !s.late && s.taken < |st.messages|
    ensures Legal(st, s, OneMessage())
    ensures Run(st, s, OneMessage()) ==
              State(Receiving, Stopped, false, s.expired, s.taken + 1,
                    s.delivered + [Answer(st.allowed, st.messages[s.taken])], FirstLate(s))
  {
    var received := Next(st, s, Receive(None));
    var checking := Next(st, received, Stop);
    var sending := Next(st, checking, ReadFlag);
    Then(st, sending, Send(true), []);
    Then(st, checking, ReadFlag, [Send(true)] + []);
    Then(st, received, Stop, [ReadFlag] + ([Send(true)] + []));
    Then(st, s, Receive(None), [Stop] + ([ReadFlag] + ([Send(true)] + [])));
  }

  lemma Then(st: Stream, s: State, step: Step, rest: seq<Step>)
    requires Enabled(st, s, step) && Legal(st, Next(st, s, step), rest)
    ensures Legal(st, s, [step] + rest) && Run(st, s, [step] + rest) == Run(st, Next(st, s, step), rest)
  {
    assert ([step] + rest)[1..] == rest;
  }

  /** Every stream can be delivered: some run sends the page every message, each
      masked, and reports a whole stream. */
  lemma EveryStreamCanBeWhole(st: Stream)
    ensures exists steps ::
              && Legal(st, START, steps)
              && Run(st, START, steps).delivered == Answers(st.allowed, st.messages)
              && Run(st, START, steps).pc == Returned(Whole)
  {
    var n := |st.messages|;
    DeliversSoMany(st, n);
    assert Answers(st.allowed, st.messages)[..n] == Answers(st.allowed, st.messages);
    var s := Delivering(st, n);
    var received := Next(st, s, Receive(Some(Eof)));
    var checking := Next(st, received, Stop);
    var deciding := Next(st, checking, ReadFlag);
    Then(st, deciding, Decide, []);
    Then(st, checking, ReadFlag, [Decide] + []);
    Then(st, received, Stop, [ReadFlag] + ([Decide] + []));
    Then(st, s, Receive(Some(Eof)), [Stop] + ([ReadFlag] + ([Decide] + [])));
    RunOfParts(st, START, Deliveries(n), [Receive(Some(Eof))] + ([Stop] + ([ReadFlag] + ([Decide] + []))));
  }

  /** No module that sends fewer can be taken that far. */
  lemma {:induction false} DeliveriesAreTaken(st: Stream, n: nat)
    requires Legal(st, START, Deliveries(n))
    ensures n <= |st.messages|
  {
    if n > 0 {
      RunOfParts(st, START, Deliveries(n - 1), OneMessage());
      DeliveriesAreTaken(st, n - 1);
      DeliversSoMany(st, n - 1);
      assert Enabled(st, Delivering(st, n - 1), OneMessage()[0]);
    }
  }

  /** What whole runs tell the page of a module's stream: how many messages there
      are, and of each what some declared path runs to. In no run more, and in some
      run no less. */
  lemma RunsTellApartOnlyWhatIsDeclared(allowed: Allowed, one: seq<Message>, other: seq<Message>)
    ensures ShowAlike(Stream(one, allowed), Stream(other, allowed)) <==>
            |one| == |other| && forall i :: 0 <= i < |one| ==> Alike(allowed, one[i], other[i])
  {
    var a, b := Stream(one, allowed), Stream(other, allowed);
    if ShowAlike(a, b) {
      DeliversSoMany(a, |one|);
      DeliveriesAreTaken(b, |one|);
      DeliversSoMany(b, |other|);
      DeliveriesAreTaken(a, |other|);
      assert SameToThePage(a, b, Deliveries(|one|));
      assert Answers(allowed, one)[..|one|] == Answers(allowed, one);
      assert Answers(allowed, other)[..|other|] == Answers(allowed, other);
      AnswersTellApartOnlyWhatIsDeclared(allowed, one, other);
    }
    if |one| == |other| && forall i :: 0 <= i < |one| ==> Alike(allowed, one[i], other[i]) {
      AnswersTellApartOnlyWhatIsDeclared(allowed, one, other);
      forall steps
        ensures Legal(a, START, steps) <==> Legal(b, START, steps)
        ensures Legal(a, START, steps) ==> Run(a, START, steps) == Run(b, START, steps)
      {
        AlikeGoAlike(a, b, START, steps);
      }
    }
  }

  /** What a route lets through: its declared response fields, or all of it. */
  function AllowedOf(rpc: P.ConsumedMethod): Allowed {
    if rpc.whole || rpc.mask == None then None else Some(rpc.mask.value.declared)
  }

  /** So, for every route of a declaration that resolves: a page learns of two
      answers only what the method's own response fields, over its own answer's
      message, tell apart, unless the method says the whole answer is the page's. */
  lemma RoutesTellApartOnlyWhatIsDeclared(
      modules: seq<P.ConsumedModule>, registry: P.Registry, routes: map<string, P.Route>, path: string,
      one: seq<Message>, other: seq<Message>)
    requires P.Resolvable(modules, registry) && P.IsRouting(routes, modules, registry) && path in routes
    ensures var r := routes[path];
      && (r.rpc.whole || (r.rpc.mask.Some? && r.rpc.mask.value.of == r.md.output))
      && (ShowAlike(Stream(one, AllowedOf(r.rpc)), Stream(other, AllowedOf(r.rpc))) <==>
            && |one| == |other|
            && forall i :: 0 <= i < |one| ==>
                 if r.rpc.whole then one[i] == other[i]
                 else AlikeWherePassing(r.rpc.mask.value.declared, one[i], other[i]))
  {
    P.RoutesAreSound(modules, registry, routes, path);
    RunsTellApartOnlyWhatIsDeclared(AllowedOf(routes[path].rpc), one, other);
  }

  // --- the race that Stop leaves open ---

  /** Stopped while armed, the timer never sets the flag. */
  lemma {:induction false} StillStopped(st: Stream, s: State, steps: seq<Step>)
    requires Inv(st, s) && s.timer == Stopped && Legal(st, s, steps)
    ensures var end := Run(st, s, steps); end.timer == Stopped && !end.late && end.pc != Returned(NoFirstAnswer)
    decreases |steps|
  {
    if steps != [] {
      InvKept(st, s, steps[0]);
      StillStopped(st, Next(st, s, steps[0]), steps[1..]);
    }
  }

  /** The way to a late first answer: the callback first, and then straight to the
      end. */
  function Hurry(s: State): Step
    requires !s.pc.Returned?
  {
    match s.timer
    case Armed => Fire
    case Started => StoreFlag
    case _ =>
      match s.pc
      case Issuing => Issue(true)
      case Opening => Open(true)
      case Receiving => Receive(Some(Failure))
      case Received(_) => Stop
      case Checking(_) => ReadFlag
      case Sending => Send(true)
      case Deciding(_) => Decide
  }

  lemma {:induction false} EndsLate(st: Stream, s: State) returns (steps: seq<Step>)
    requires Inv(st, s) && !s.pc.Returned? && s.timer != Stopped
    ensures Legal(st, s, steps) && Run(st, s, steps).pc == Returned(NoFirstAnswer)
    ensures s.delivered <= Run(st, s, steps).delivered
    decreases Measure(st, s)
  {
    var step := Hurry(s);
    var after := Next(st, s, step);
    InvKept(st, s, step);
    MeasureFalls(st, s, step);
    if after.pc.Returned? {
      steps := [step];
      assert steps[1..] == [] && Run(st, after, []) == after;
    } else {
      var rest := EndsLate(st, after);
      steps := [step] + rest;
      assert steps[1..] == rest;
    }
  }

  /** Some continuation reports that the module never started its stream. */
  ghost predicate MayEndLate(st: Stream, s: State) {
    exists steps :: Legal(st, s, steps) && Run(st, s, steps).pc == Returned(NoFirstAnswer)
  }

  /** From any moment at which the loop still goes, that verdict can be reached
      exactly when no Stop found the timer armed, whatever has been delivered and
      however the module's stream goes on. */
  lemma MayEndLateIff(st: Stream, s: State)
    requires Reachable(st, s) && !s.pc.Returned?
    ensures MayEndLate(st, s) <==> s.timer != Stopped
  {
    ReachableIsSound(st, s);
    if s.timer == Stopped {
      forall steps | Legal(st, s, steps) ensures Run(st, s, steps).pc != Returned(NoFirstAnswer) {
        StillStopped(st, s, steps);
      }
    } else {
      var steps := EndsLate(st, s);
    }
  }

  /** Before the first Stop nothing is sent. */
  predicate BeforeStop(s: State) {
    s.delivered == [] && !s.pc.Checking? && !s.pc.Sending?
  }

  lemma {:induction false} SilentBeforeStop(st: Stream, s: State, steps: seq<Step>)
    requires BeforeStop(s) && Legal(st, s, steps) && Stop !in steps
    ensures BeforeStop(Run(st, s, steps))
    decreases |steps|
  {
    if steps != [] {
      assert steps[0] in steps;
      SilentBeforeStop(st, Next(st, s, steps[0]), steps[1..]);
    }
  }

  /** With the flag up when Stop has been called, nothing is sent afterwards; nor
      when what came back was no message. */
  lemma {:induction false} SilentAfterStop(st: Stream, s: State, steps: seq<Step>)
    requires s.delivered == [] && Legal(st, s, steps)
    requires s.pc.Deciding? || s.pc.Returned? || (s.pc.Checking? && (s.late || s.pc.end.Some?))
    ensures Run(st, s, steps).delivered == []
    decreases |steps|
  {
    if steps != [] {
      SilentAfterStop(st, Next(st, s, steps[0]), steps[1..]);
    }
  }

  /** Where the loop stands as it calls Stop for the first time. */
  ghost predicate AtFirstStop(st: Stream, s: State) {
    s.pc.Received? && exists pre :: Stop !in pre && Legal(st, START, pre) && Run(st, START, pre) == s
  }

  /** From that call on the page is sent something, and is then told that there was
      no first answer. */
  ghost predicate LateAfterSending(st: Stream, s: State, post: seq<Step>)
    requires s.pc.Received?
  {
    && Legal(st, Next(st, s, Stop), post)
    && var end := Run(st, Next(st, s, Stop), post); end.delivered != [] && end.pc == Returned(NoFirstAnswer)
  }

  /** Which it can be exactly when what came back first was a message, and the
      timer's callback had started at that call and had not yet set its flag. */
  lemma LateAfterSendingIff(st: Stream, s: State)
    requires AtFirstStop(st, s)
    ensures (exists post :: LateAfterSending(st, s, post)) <==> s.pc == Received(None) && s.timer == Started
  {
    var pre :| Stop !in pre && Legal(st, START, pre) && Run(st, START, pre) == s;
    InvAlways(st, START, pre);
    SilentBeforeStop(st, START, pre);
    var after := Next(st, s, Stop);
    InvKept(st, s, Stop);
    if post :| LateAfterSending(st, s, post) {
      if after.timer == Stopped { StillStopped(st, after, post); }
      if after.late || after.pc.end.Some? { SilentAfterStop(st, after, post); }
    }
    if s.pc == Received(None) && s.timer == Started {
      var post := SendsAndEndsLate(st, after);
      assert LateAfterSending(st, s, post);
    }
  }

  lemma SendsAndEndsLate(st: Stream, s: State) returns (post: seq<Step>)
    requires Inv(st, s) && s.pc == Checking(None) && s.timer == Started
    ensures Legal(st, s, post) && Run(st, s, post).delivered != [] && Run(st, s, post).pc == Returned(NoFirstAnswer)
  {
    var sending := Next(st, s, ReadFlag);
    InvKept(st, s, ReadFlag);
    var sent := Next(st, sending, Send(true));
    InvKept(st, sending, Send(true));
    var rest := EndsLate(st, sent);
    post := [ReadFlag] + ([Send(true)] + rest);
    assert post[1..] == [Send(true)] + rest && post[1..][1..] == rest;
  }

  /** There are such runs, even of a stream that ended as it should. */
  lemma LateAfterDeliveringHappens(m: Message, allowed: Allowed)
    ensures exists s ::
              && Reachable(Stream([m], allowed), s)
              && s.delivered == [Answer(allowed, m)] && s.pc == Returned(NoFirstAnswer)
  {
    var st, sent := Stream([m], allowed), [Answer(allowed, m)];
    DeliveredWhileStarted(m, allowed);
    Goes(st, Going(Receiving, Started, sent), StoreFlag, Going(Receiving, Stored, sent));
    Goes(st, Going(Receiving, Stored, sent), Receive(Some(Eof)), Going(Received(Some(Eof)), Stored, sent));
    Goes(st, Going(Received(Some(Eof)), Stored, sent), Stop, Going(Checking(Some(Eof)), Stored, sent));
    Goes(st, Going(Checking(Some(Eof)), Stored, sent), ReadFlag, Going(Deciding(Some(Eof)), Stored, sent));
    Goes(st, Going(Deciding(Some(Eof)), Stored, sent), Decide, Going(Returned(NoFirstAnswer), Stored, sent));
  }

  lemma DeliveredWhileStarted(m: Message, allowed: Allowed)
    ensures Reachable(Stream([m], allowed), Going(Receiving, Started, [Answer(allowed, m)]))
  {
    var st := Stream([m], allowed);
    Begins(st);
    Goes(st, START, Issue(true), Before(Opening, Armed));
    Goes(st, Before(Opening, Armed), Open(true), Before(Receiving, Armed));
    Goes(st, Before(Receiving, Armed), Fire, Before(Receiving, Started));
    Goes(st, Before(Receiving, Started), Receive(None), Going(Received(None), Started, []));
    Goes(st, Going(Received(None), Started, []), Stop, Going(Checking(None), Started, []));
    Goes(st, Going(Checking(None), Started, []), ReadFlag, Going(Sending, Started, []));
    Goes(st, Going(Sending, Started, []), Send(true), Going(Receiving, Started, [Answer(allowed, m)]));
  }

  function Before(pc: Pc, timer: Timer): State {
    State(pc, timer, false, false, 0, [], None)
  }

  /** One message in, and the flag down when it came. */
  function Going(pc: Pc, timer: Timer, sent: seq<Message>): State {
    State(pc, timer, timer == Stored, false, 1, sent, Some(false))
  }

  lemma Begins(st: Stream)
    ensures Reachable(st, START)
  {
    assert Legal(st, START, []) && Run(st, START, []) == START;
  }

  lemma Goes(st: Stream, s: State, step: Step, after: State)
    requires Reachable(st, s) && Enabled(st, s, step) && Next(st, s, step) == after
    ensures Reachable(st, after)
  {
    var steps :| Legal(st, START, steps) && Run(st, START, steps) == s;
    OneMoreStep(st, START, steps, step);
  }

  // --- it comes to an end ---

  predicate OfTheLoop(step: Step) {
    !(step.Fire? || step.StoreFlag? || step.CancelStream? || step.Expire?)
  }

  /** Until it returns the loop can always go on: what it waits for, the module's
      next answer or its failure, is another's to give and always may come. */
  lemma NeverStuck(st: Stream, s: State)
    requires Reachable(st, s) && !s.pc.Returned?
    ensures exists step :: OfTheLoop(step) && Enabled(st, s, step)
  {
    ReachableIsSound(st, s);
    match s.pc {
      case Issuing => assert Enabled(st, s, Issue(true));
      case Opening => assert Enabled(st, s, Open(true));
      case Receiving => assert Enabled(st, s, Receive(Some(Failure)));
      case Received(_) => assert Enabled(st, s, Stop);
      case Checking(_) => assert Enabled(st, s, ReadFlag);
      case Sending => assert Enabled(st, s, Send(true));
      case Deciding(_) => assert Enabled(st, s, Decide);
    }
  }

  /** Every step spends something: so a run is never longer than START's measure. */
  function Measure(st: Stream, s: State): int {
    5 * (|st.messages| - s.taken)
    + (match s.pc
       case Issuing => 7
       case Opening => 6
       case Receiving => 5
       case Received(end) => if end == None then 9 else 4
       case Checking(end) => if end == None then 8 else 3
       case Sending => 7
       case Deciding(_) => 2
       case Returned(_) => 0)
    + (match s.timer case Unset => 4 case Armed => 3 case Started => 2 case Stored => 1 case _ => 0)
    + (if s.expired then 0 else 1)
  }

  lemma MeasureFalls(st: Stream, s: State, step: Step)
    requires Inv(st, s) && Enabled(st, s, step)
    ensures 0 <= Measure(st, Next(st, s, step)) < Measure(st, s)
  {
  }

  lemma {:induction false} RunsAreFinite(st: Stream, s: State, steps: seq<Step>)
    requires Inv(st, s) && Legal(st, s, steps)
    ensures |steps| <= Measure(st, s)
    decreases |steps|
  {
    if steps != [] {
      MeasureFalls(st, s, steps[0]);
      InvKept(st, s, steps[0]);
      RunsAreFinite(st, Next(st, s, steps[0]), steps[1..]);
    }
  }
}
