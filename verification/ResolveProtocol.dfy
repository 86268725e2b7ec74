/** resolve as the atomic steps of any number of callers sharing one request's
    cache, a mutex, a clock that never goes back, and an authority that may answer
    anything. What is recorded beside the program's own state (the history) is
    read by no step. */
module ResolveProtocol {
  import opened Wrappers
  import opened AskKey
  import opened Renewal
  import opened WorkContextCache

  /** Where one call of resolve stands. */
  datatype Pc =
    | Called                                                        // wants the mutex
    | InFirst                                                       // holds it, first section
    | Waiting(leader: nat)                                          // on another's issue
    | Issuing                                                       // its own issue is out
    | WantRemember(capability: Capability, principals: Principals)  // issued; wants the mutex
    | InRemember(capability: Capability, principals: Principals)    // holds it, remembering
    | HasAnswer(answer: Result<Capability, Failure>)                // issue returned
    | Written(answer: Result<Capability, Failure>)                  // fields written; wants the mutex
    | InSecond(answer: Result<Capability, Failure>)                 // holds it, second section
    | Closing(answer: Result<Capability, Failure>)                  // about to close
    | Returned(outcome: Outcome)

  /** A call, under the key of the ask it was made for. */
  datatype Call = Call(key: string, ask: Ask, pc: Pc)

  /** A pending issue's fields, once written, and whether it is closed. */
  datatype Pending = Pending(fields: Option<Outcome>, closed: bool)

  datatype Event =
    | Began(call: nat, key: string, at: int)
    | Ended(call: nat, key: string, at: int, answer: Answer)

  /** What happened, in order, with where each issue ended, which issue a cached
      token, a returned token and a remembered principal came from. */
  datatype History = History(
    log: seq<Event>,
    endOf: map<nat, nat>,
    minter: map<string, nat>,
    source: map<nat, nat>,
    namer: map<string, nat>)

  datatype State = State(
    request: Request,
    now: int,
    holder: Option<nat>,
    cache: Contents,
    pending: map<nat, Pending>,
    calls: map<nat, Call>,
    history: History)

  datatype Step =
    | Invoke(t: nat, ask: Ask)
    | Tick(to: int)
    | LockFirst(t: nat)
    | First(t: nat)
    | Wake(t: nat)
    | Cancel(t: nat)
    | Answer(t: nat, answer: Renewal.Answer)
    | LockRemember(t: nat)
    | Remember(t: nat)
    | Write(t: nat)
    | LockSecond(t: nat)
    | Second(t: nat)
    | Close(t: nat)

  function Start(request: Request, now: int): State {
    State(request, now, None, EMPTY, map[], map[], History([], map[], map[], map[], map[]))
  }

  predicate Enabled(s: State, step: Step) {
    match step
    case Invoke(t, _) => t !in s.calls
    case Tick(to) => s.now <= to
    case LockFirst(t) => t in s.calls && s.calls[t].pc.Called? && s.holder == None
    case First(t) => t in s.calls && s.calls[t].pc.InFirst?
    case Wake(t) =>
      && t in s.calls && s.calls[t].pc.Waiting?
      && s.calls[t].pc.leader in s.pending && s.pending[s.calls[t].pc.leader].closed
      && s.pending[s.calls[t].pc.leader].fields.Some?
    case Cancel(t) => t in s.calls && s.calls[t].pc.Waiting?
    case Answer(t, _) => t in s.calls && s.calls[t].pc.Issuing?
    case LockRemember(t) => t in s.calls && s.calls[t].pc.WantRemember? && s.holder == None
    case Remember(t) => t in s.calls && s.calls[t].pc.InRemember?
    case Write(t) => t in s.calls && s.calls[t].pc.HasAnswer?
    case LockSecond(t) => t in s.calls && s.calls[t].pc.Written? && s.holder == None
    case Second(t) => t in s.calls && s.calls[t].pc.InSecond?
    case Close(t) => t in s.calls && s.calls[t].pc.Closing? && t in s.pending
  }

  function At(s: State, t: nat, pc: Pc): State
    requires t in s.calls
  {
    s.(calls := s.calls[t := s.calls[t].(pc := pc)])
  }

  function Logged(h: History, e: Event): History {
    h.(log := h.log + [e])
  }

  /** The first critical section, to its unlock. */
  function AfterFirst(s: State, t: nat): State
    requires t in s.calls
  {
    var key := s.calls[t].key;
    var out := s.(holder := None, cache := Entered(s.cache, key, s.now, t));
    match Enter(s.cache, key, s.now)
    case Answered(outcome) =>
      var done := At(out, t, Returned(outcome));
      if outcome.Ok? && key in s.history.minter then
        done.(history := s.history.(source := s.history.source[t := s.history.minter[key]]))
      else done
    case WaitFor(leader) => At(out, t, Waiting(leader))
    case Lead =>
      At(out, t, Issuing).(
        pending := s.pending[t := Pending(None, false)],
        history := Logged(s.history, Began(t, key, s.now)))
  }

  /** The authority's answer, read by held at the instant it arrives. */
  function AfterAnswer(s: State, t: nat, answer: Renewal.Answer): State
    requires t in s.calls
  {
    var ended := Logged(s.history, Ended(t, s.calls[t].key, s.now, answer));
    var h := ended.(endOf := s.history.endOf[t := |s.history.log|]);
    var held := Held(answer, s.now);
    var pc := if held.Ok? && answer.Issuance? then WantRemember(held.value, answer.principals) else HasAnswer(held);
    At(s, t, pc).(history := h)
  }

  function Next(s: State, step: Step): State
    requires Enabled(s, step)
  {
    match step
    case Invoke(t, ask) => s.(calls := s.calls[t := Call(Key(s.request, ask), ask, Called)])
    case Tick(to) => s.(now := to)
    case LockFirst(t) => At(s, t, InFirst).(holder := Some(t))
    case First(t) => AfterFirst(s, t)
    case Wake(t) =>
      var leader := s.calls[t].pc.leader;
      At(s, t, Returned(s.pending[leader].fields.value)).(
        history := s.history.(source := s.history.source[t := leader]))
    case Cancel(t) => At(s, t, Returned(Err(Cancelled)))
    case Answer(t, answer) => AfterAnswer(s, t, answer)
    case LockRemember(t) =>
      At(s, t, InRemember(s.calls[t].pc.capability, s.calls[t].pc.principals)).(holder := Some(t))
    case Remember(t) =>
      var pc := s.calls[t].pc;
      At(s, t, HasAnswer(Ok(pc.capability))).(
        holder := None,
        cache := Remembered(s.cache, pc.capability.token, pc.principals),
        history := s.history.(namer := s.history.namer[pc.capability.token := t]))
    case Write(t) =>
      var answer := s.calls[t].pc.answer;
      At(s, t, Written(answer)).(pending := s.pending[t := Pending(Some(OutcomeOf(answer)), false)])
    case LockSecond(t) => At(s, t, InSecond(s.calls[t].pc.answer)).(holder := Some(t))
    case Second(t) =>
      var answer := s.calls[t].pc.answer;
      At(s, t, Closing(answer)).(
        holder := None,
        cache := Settled(s.cache, s.calls[t].key, answer),
        history := if answer.Ok? then s.history.(minter := s.history.minter[s.calls[t].key := t]) else s.history)
    case Close(t) =>
      var answer := s.calls[t].pc.answer;
      At(s, t, Returned(OutcomeOf(answer))).(
        pending := s.pending[t := s.pending[t].(closed := true)],
        history := s.history.(source := s.history.source[t := t]))
  }

  /** Steps taken one after the other, each enabled where it is taken. */
  predicate Legal(s: State, steps: seq<Step>)
    decreases |steps|
  {
    steps == [] || (Enabled(s, steps[0]) && Legal(Next(s, steps[0]), steps[1..]))
  }

  function Run(s: State, steps: seq<Step>): State
    requires Legal(s, steps)
    decreases |steps|
  {
    if steps == [] then s else Run(Next(s, steps[0]), steps[1..])
  }
}
