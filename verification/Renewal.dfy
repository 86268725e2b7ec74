/** How long an issued Work Context is reused for. Instants and durations are
    whole nanoseconds. */
module Renewal {
  import opened Wrappers

  const SECOND := 1_000_000_000
  const RENEWAL := 10 * SECOND
  const MINIMUM_LIFETIME := 5 * SECOND

  /** A duration is a signed 64-bit count, and a difference of instants saturates. */
  const MAX_DURATION := 0x7FFF_FFFF_FFFF_FFFF
  const MIN_DURATION := -0x8000_0000_0000_0000

  /** Whom the authority says a Work Context acts for. */
  datatype Principals = Principals(organization: string, owner: string, actor: string)

  /** The status codes the authority refuses with, as far as they are told apart. */
  datatype Code =
    | Unauthenticated | InvalidArgument | OutOfRange | PermissionDenied | NotFound
    | FailedPrecondition | Unavailable | DeadlineExceeded | OtherCode

  /** What an issue answers: an issuance, a status, or an error that carries none. */
  datatype Answer =
    | Issuance(token: string, expiresAt: int, principals: Principals)
    | Status(code: Code, message: string)
    | Unreadable(cause: string)

  datatype Failure =
    | Refusal(status: int, reason: string)
    | Unusable
    | Unread(cause: string)
    | Cancelled

  /** What the cache is handed: the token, and the instant to renew it by. */
  datatype Capability = Capability(token: string, reuseUntil: int)

  function RefusalStatus(code: Code): int {
    match code
    case Unauthenticated => 401
    case InvalidArgument | OutOfRange => 400
    case PermissionDenied | NotFound | FailedPrecondition => 403
    case Unavailable | DeadlineExceeded => 503
    case OtherCode => 502
  }

  /** A refusal that settles the ask for the rest of the request. */
  predicate Final(f: Failure) {
    f.Refusal? && (f.status == 401 || f.status == 403)
  }

  function Until(instant: int, now: int): int {
    if instant - now > MAX_DURATION then MAX_DURATION
    else if instant - now < MIN_DURATION then MIN_DURATION
    else instant - now
  }

  /** Division that truncates toward zero. */
  function Quotient(a: int, b: int): int
    requires b > 0
  {
    if a < 0 then -((-a) / b) else a / b
  }

  function LeadTime(lifetime: int): int {
    if Quotient(lifetime, 2) < RENEWAL then Quotient(lifetime, 2) else RENEWAL
  }

  /** An answer as the cache holds it, read at the instant now. */
  function Held(answer: Answer, now: int): Result<Capability, Failure> {
    match answer
    case Unreadable(cause) => Err(Unread(cause))
    case Status(code, message) =>
      var status := RefusalStatus(code);
      Err(Refusal(status, if status < 500 then message else ""))
    case Issuance(token, expiresAt, _) =>
      var lifetime := Until(expiresAt, now);
      if token == "" || lifetime < MINIMUM_LIFETIME then Err(Unusable)
      else Ok(Capability(token, expiresAt - LeadTime(lifetime)))
  }

  // --- what an answer comes to, in numbers ---

  /** What a call is handed that is answered so at the instant n. */
  predicate Comes(answer: Answer, n: int, outcome: Result<string, Failure>) {
    match answer
    case Issuance(token, expiresAt, _) =>
      outcome == if token != "" && expiresAt - n >= 5_000_000_000 then Ok(token) else Err(Unusable)
    case Status(code, message) =>
      && outcome.Err? && outcome.error.Refusal?
      && (outcome.error.status == 401 <==> code == Unauthenticated)
      && (outcome.error.status == 400 <==> code == InvalidArgument || code == OutOfRange)
      && (outcome.error.status == 403 <==> code == PermissionDenied || code == NotFound || code == FailedPrecondition)
      && (outcome.error.status == 503 <==> code == Unavailable || code == DeadlineExceeded)
      && (outcome.error.status == 502 <==> code == OtherCode)
      && outcome.error.reason == if outcome.error.status in {502, 503} then "" else message
    case Unreadable(cause) => outcome == Err(Unread(cause))
  }

  /** An answer that settles its ask for the rest of the request. */
  predicate Settles(answer: Answer) {
    && answer.Status?
    && (answer.code == Unauthenticated || answer.code == PermissionDenied
        || answer.code == NotFound || answer.code == FailedPrecondition)
  }

  /** An issuance that came at the instant at and is still good at now: it had five
      seconds, and now is as long before its expiry as half of what it had, or ten
      seconds where that is less. */
  predicate StillGood(answer: Answer, at: int, now: int) {
    && answer.Issuance? && answer.token != "" && answer.expiresAt - at >= 5_000_000_000
    && now < answer.expiresAt - if answer.expiresAt - at < 20_000_000_000 then (answer.expiresAt - at) / 2
                                else 10_000_000_000
  }

  lemma HeldComes(answer: Answer, n: int, now: int)
    ensures Held(answer, n).Ok? ==> answer.Issuance? && Comes(answer, n, Ok(Held(answer, n).value.token))
    ensures Held(answer, n).Err? ==> Comes(answer, n, Err(Held(answer, n).error))
    ensures Settles(answer) <==> Held(answer, n).Err? && Final(Held(answer, n).error)
    ensures StillGood(answer, n, now) <==> Held(answer, n).Ok? && now < Held(answer, n).value.reuseUntil
  {
  }

  /** A token still good has more than its lead to run: two and a half seconds. */
  lemma StillGoodOutlives(answer: Answer, at: int, now: int)
    requires StillGood(answer, at, now)
    ensures 2 * (answer.expiresAt - now) > 5_000_000_000
    ensures answer.expiresAt - at >= 20_000_000_000 ==> answer.expiresAt - now > 10_000_000_000
  {
  }
}
