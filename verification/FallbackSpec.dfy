/**
  * Errors of model calls and what the fallback chain may do after them:
  * `packages/ai-provider/src/gateway-fallback-chain.ts` and `gateway-lifecycle.ts`.
  */
module FallbackSpec {
  import opened Wrappers

  datatype Code =
    | ConfigError | MissingApiKey | Refusal | RequestBudgetExceeded | RateLimited | ProviderError
    | OtherCode(name: string)

  /** `accountFailure` is what `accountFailureKind` says of these details with the error's status. */
  datatype Details = Details(unsupportedFunctionCalling: bool, fallbackSkipped: bool, accountFailure: bool)

  const NO_DETAILS := Details(false, false, false)

  datatype AiError = AiError(
    code: Code, message: string, provider: string, model: Option<string>,
    retriable: bool, status: Option<nat>, details: Details)

  /** What can be thrown; `transient` is the verdict of `isTransientTransportError`. */
  datatype Thrown =
    | Ai(error: AiError)
    | BudgetError(message: string)
    | RangeProblem(message: string)
    | Problem(message: string, transient: bool)

  function Normalize(thrown: Thrown, provider: string): AiError
  {
    match thrown
    case Ai(error) => error
    case BudgetError(message) => AiError(RequestBudgetExceeded, message, provider, None, false, None, NO_DETAILS)
    case RangeProblem(message) => AiError(ConfigError, message, provider, None, false, None, NO_DETAILS)
    case Problem(message, transient) => AiError(ProviderError, message, provider, None, transient, None, NO_DETAILS)
  }

  predicate ShouldFallback(error: AiError)
  {
    if error.code == ConfigError && error.details.unsupportedFunctionCalling then true
    else if error.code == MissingApiKey then true
    else if error.code == Refusal || error.code == RequestBudgetExceeded then false
    else if error.status == Some(429) then true
    else if error.details.accountFailure then true
    else if error.status.Some? && 400 <= error.status.value < 500 then false
    else error.code == RateLimited || error.code == ProviderError
  }

  datatype Account = Account(provider: string, baseUrl: Option<string>, apiKey: Option<string>)

  function TrimSlashes(url: string): string
  {
    if url != "" && url[|url| - 1] == '/' then TrimSlashes(url[..|url| - 1]) else url
  }

  function Identity(account: Account): Account
  {
    match account.baseUrl
    case None => account
    case Some(url) => account.(baseUrl := Some(TrimSlashes(url)))
  }

  /** How far an attempt gets: the key check, the queue for a slot, or the hooks and the request. */
  datatype Stage = Credentials | Queue | Request

  /** `wholeAccount` is what `failsWholeAccount` says of the thrown error. */
  datatype Outcome = Succeeds(result: nat) | Throws(stage: Stage, thrown: Thrown, wholeAccount: bool)

  /**
    * A target with what happens when it is prepared and tried. After a failure: `hookAbort` is thrown by the
    * error hooks, `aborted` is the caller's signal, and `exhausted` is thrown by the check of the budget.
    */
  datatype Target = Target(
    provider: string, model: string, prepareFails: Option<Thrown>, account: Account, outcome: Outcome,
    hookAbort: Option<Thrown>, aborted: bool, exhausted: Option<Thrown>)

  function TargetFailure(thrown: Thrown, t: Target): AiError
  {
    var failure := Normalize(thrown, t.provider);
    failure.(message := "[provider: " + t.provider + ", model: " + t.model + "] " + failure.message,
             provider := t.provider, model := Some(t.model))
  }

  function PrepareFailure(t: Target): AiError
    requires t.prepareFails.Some?
  {
    var thrown := t.prepareFails.value;
    if thrown.Ai? then TargetFailure(thrown, t)
    else TargetFailure(Ai(AiError(ConfigError, thrown.message, t.provider, None, false, None, NO_DETAILS)), t)
  }

  /** What the attempt itself failed with; an abort in a hook replaces it. */
  function Attempted(t: Target): AiError
    requires t.outcome.Throws?
  {
    TargetFailure(if t.hookAbort.Some? then t.hookAbort.value else t.outcome.thrown, t)
  }

  /** A fallback that was skipped without a request is only a remark on the failure before it. */
  function Merged(previous: Option<AiError>, attempted: AiError): AiError
  {
    if attempted.details.fallbackSkipped && previous.Some?
    then previous.value.(message := previous.value.message + " Then: " + attempted.message)
    else attempted
  }

  const NO_TARGET := AiError(ProviderError, "No model target resolved.", "unknown", None, false, None, NO_DETAILS)

  /** How the loop goes on after a target was tried: with its error remembered, or not at all. */
  datatype Verdict = Done(result: nat) | Stop(error: AiError) | GoOn(error: AiError)

  function VerdictOn(t: Target, canFallback: bool, previous: Option<AiError>): Verdict
  {
    match t.outcome
    case Succeeds(result) => Done(result)
    case Throws(_, _, _) =>
      var error := Merged(previous, Attempted(t));
      if t.aborted || !canFallback || !ShouldFallback(error) then Stop(error)
      else if t.exhausted.Some? then Stop(TargetFailure(t.exhausted.value, t))
      else GoOn(error)
  }

  predicate FailsAccount(t: Target) { t.outcome.Throws? && t.outcome.wholeAccount }

  predicate SameAccount(s: Target, t: Target) { Identity(s.account) == Identity(t.account) }

  /** Target `i`, when the loop reaches it, is tried: no target tried before it failed for its whole account. */
  ghost predicate Runs(targets: seq<Target>, i: nat)
    requires i < |targets|
    decreases i
  {
    !exists j :: 0 <= j < i && Runs(targets, j) && FailsAccount(targets[j]) && SameAccount(targets[j], targets[i])
  }

  /** The error remembered when the loop reaches target `i`. */
  ghost function LastError(targets: seq<Target>, i: nat): Option<AiError>
    requires i <= |targets|
  {
    if i == 0 then None
    else if Runs(targets, i - 1) && targets[i - 1].outcome.Throws?
    then Some(Merged(LastError(targets, i - 1), Attempted(targets[i - 1])))
    else LastError(targets, i - 1)
  }

  /** The verdict on target `i` when it is tried. */
  ghost function VerdictAt(targets: seq<Target>, i: nat): Verdict
    requires i < |targets|
  {
    VerdictOn(targets[i], i < |targets| - 1, LastError(targets, i))
  }

  /** The operation from target `i` on. */
  ghost function Resolve(targets: seq<Target>, i: nat): Result<nat, AiError>
    requires i <= |targets|
    decreases |targets| - i
  {
    if i == |targets| then Err(if LastError(targets, i).Some? then LastError(targets, i).value else NO_TARGET)
    else if targets[i].prepareFails.Some? then Err(PrepareFailure(targets[i]))
    else if !Runs(targets, i) then Resolve(targets, i + 1)
    else
      match VerdictAt(targets, i)
      case Done(result) => Ok(result)
      case Stop(error) => Err(error)
      case GoOn(_) => Resolve(targets, i + 1)
  }
}
