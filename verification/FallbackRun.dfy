/** The fallback chain as the program runs it, and what follows for its callers. */
module FallbackRun {
  import opened FallbackLaws
  import opened FallbackSpec
  import opened Wrappers

  datatype Counts = Counts(held: nat, acquired: nat, released: nat, most: nat)

  /** `n` slots were taken and given back, one at a time. */
  predicate Borrowed(before: Counts, after: Counts, n: nat)
  {
    && after.held == before.held
    && after.acquired == before.acquired + n && after.released == before.released + n
    && after.most <= Max(before.most, before.held + 1)
  }

  /** The shared slots for model calls. `most` is the greatest number held at once. */
  class Slots {
    var held: nat
    var acquired: nat
    var released: nat
    var most: nat

    function Now(): Counts
      reads this
    {
      Counts(held, acquired, released, most)
    }

    method Acquire()
      modifies this
      ensures held == old(held) + 1 && acquired == old(acquired) + 1 && released == old(released)
      ensures most == if old(most) < held then held else old(most)
    {
      held, acquired := held + 1, acquired + 1;
      most := if most < held then held else most;
    }

    method Release()
      requires held > 0
      modifies this
      ensures held == old(held) - 1 && acquired == old(acquired) && released == old(released) + 1
      ensures most == old(most)
    {
      held, released := held - 1, released + 1;
    }
  }

  function Max(a: nat, b: nat): nat { if a < b then b else a }

  /** `createFailedAccountTracker`. */
  class FailedAccounts {
    var accounts: seq<Account>

    constructor ()
      ensures accounts == []
    {
      accounts := [];
    }

    predicate Has(account: Account)
      reads this
    {
      Identity(account) in accounts
    }

    method Record(account: Account, wholeAccount: bool)
      modifies this
      ensures accounts == if wholeAccount then old(accounts) + [Identity(account)] else old(accounts)
    {
      if wholeAccount {
        accounts := accounts + [Identity(account)];
      }
    }
  }

  /** `handleTargetFailure`: the error to remember, or the one to throw. */
  method HandleTargetFailure(t: Target, canFallback: bool, previous: Option<AiError>)
    returns (r: Result<AiError, AiError>)
    requires t.outcome.Throws?
    ensures r.Ok? ==> r.value == Merged(previous, Attempted(t))
    ensures r.Ok? <==> !t.aborted && canFallback && ShouldFallback(Merged(previous, Attempted(t))) && t.exhausted.None?
    ensures r.Err? && (t.aborted || !canFallback || !ShouldFallback(Merged(previous, Attempted(t)))) ==>
              r.error == Merged(previous, Attempted(t))
    ensures r.Err? && !t.aborted && canFallback && ShouldFallback(Merged(previous, Attempted(t))) ==>
              r.error == TargetFailure(t.exhausted.value, t)
  {
    var failure := t.outcome.thrown;
    if t.hookAbort.Some? {
      failure := t.hookAbort.value;
    }
    var attempted := TargetFailure(failure, t);
    var normalized := attempted;
    if attempted.details.fallbackSkipped && previous.Some? {
      normalized := previous.value.(message := previous.value.message + " Then: " + attempted.message);
    }
    if t.aborted || !canFallback || !ShouldFallback(normalized) {
      return Err(normalized);
    }
    if t.exhausted.Some? {
      return Err(TargetFailure(t.exhausted.value, t));
    }
    return Ok(normalized);
  }

  predicate TakesSlot(usesSlot: bool, outcome: Outcome)
  {
    usesSlot && (outcome.Succeeds? || outcome.stage == Request)
  }

  /** How many of the targets below `n` are tried and get a slot. */
  ghost function SlotsTaken(targets: seq<Target>, usesSlot: bool, n: nat): nat
    requires n <= |targets|
  {
    if n == 0 then 0
    else SlotsTaken(targets, usesSlot, n - 1)
         + if Runs(targets, n - 1) && TakesSlot(usesSlot, targets[n - 1].outcome) then 1 else 0
  }

  /** The targets below `n` that are tried. */
  ghost function RunsBelow(targets: seq<Target>, n: nat): (observed: seq<nat>)
    requires n <= |targets|
    ensures forall k :: 0 <= k < |observed| ==> observed[k] < n
  {
    if n == 0 then []
    else if Runs(targets, n - 1) then RunsBelow(targets, n - 1) + [n - 1]
    else RunsBelow(targets, n - 1)
  }

  /** The accounts known to fail when the loop reaches target `n`. */
  ghost function FailedBelow(targets: seq<Target>, n: nat): seq<Account>
    requires n <= |targets|
  {
    if n == 0 then []
    else if Runs(targets, n - 1) && FailsAccount(targets[n - 1])
    then FailedBelow(targets, n - 1) + [Identity(targets[n - 1].account)]
    else FailedBelow(targets, n - 1)
  }

  lemma {:induction false} KnownToFail(targets: seq<Target>, n: nat, t: Target)
    requires n <= |targets|
    ensures Identity(t.account) in FailedBelow(targets, n) <==>
            exists j :: 0 <= j < n && Runs(targets, j) && FailsAccount(targets[j]) && SameAccount(targets[j], t)
  {
    if n == 0 {
    } else {
      KnownToFail(targets, n - 1, t);
    }
  }

  /** The body of the target loop once the target is prepared and its account is not known to fail. */
  method TryTarget(t: Target, usesSlot: bool, canFallback: bool, previous: Option<AiError>,
                   failedAccounts: FailedAccounts, slots: Slots)
    returns (v: Verdict)
    modifies failedAccounts, slots
    ensures Borrowed(old(slots.Now()), slots.Now(), if TakesSlot(usesSlot, t.outcome) then 1 else 0)
    ensures slots.held == old(slots.held)
    ensures slots.acquired == old(slots.acquired) + (
              if !usesSlot || (t.outcome.Throws? && (t.outcome.stage == Credentials || t.outcome.stage == Queue))
              then 0 else 1)
    ensures v == VerdictOn(t, canFallback, previous)
    ensures t.outcome.Throws? ==>
              failedAccounts.accounts == (if t.outcome.wholeAccount
                                             then old(failedAccounts.accounts) + [Identity(t.account)]
                                             else old(failedAccounts.accounts))
  {
    var slot := TakesSlot(usesSlot, t.outcome);
    if slot {
      slots.Acquire();
    }
    match t.outcome {
      case Succeeds(result) =>
        v := Done(result);
      case Throws(_, _, wholeAccount) =>
        failedAccounts.Record(t.account, wholeAccount);
        var handled := HandleTargetFailure(t, canFallback, previous);
        v := match handled case Ok(error) => GoOn(error) case Err(error) => Stop(error);
    }
    if slot {
      slots.Release();
    }
  }

  lemma RunsIffUnknown(targets: seq<Target>, i: nat)
    requires i < |targets|
    ensures Runs(targets, i) <==> Identity(targets[i].account) !in FailedBelow(targets, i)
  {
    KnownToFail(targets, i, targets[i]);
  }

  /** A verdict other than to go on is the result. */
  lemma VerdictIsResult(targets: seq<Target>, i: nat)
    requires i < |targets| && (forall j :: 0 <= j < i ==> Passes(targets, j))
    requires targets[i].prepareFails.None? && Runs(targets, i)
    ensures match VerdictAt(targets, i)
            case Done(result) => Resolve(targets, 0) == Ok(result)
            case Stop(error) => Resolve(targets, 0) == Err(error)
            case GoOn(error) => LastError(targets, i + 1) == Some(error) && Passes(targets, i)
  {
    PassesTo(targets, i, 0);
  }

  /** What the loop knows when it reaches target `i`. */
  ghost predicate Reached(
      targets: seq<Target>, i: nat, observed: seq<nat>, lastError: Option<AiError>, accounts: seq<Account>)
  {
    && i <= |targets| && (forall j :: 0 <= j < i ==> Passes(targets, j))
    && observed == RunsBelow(targets, i) && lastError == LastError(targets, i)
    && accounts == FailedBelow(targets, i)
  }

  lemma ReachedSkips(
      targets: seq<Target>, i: nat, observed: seq<nat>, lastError: Option<AiError>, accounts: seq<Account>)
    requires Reached(targets, i, observed, lastError, accounts) && i < |targets|
    requires targets[i].prepareFails.None? && Identity(targets[i].account) in accounts
    ensures !Runs(targets, i)
    ensures Reached(targets, i + 1, observed, lastError, accounts)
  {
    RunsIffUnknown(targets, i);
  }

  lemma ReachedTries(
      targets: seq<Target>, i: nat, observed: seq<nat>, lastError: Option<AiError>, accounts: seq<Account>)
    requires Reached(targets, i, observed, lastError, accounts) && i < |targets|
    requires targets[i].prepareFails.None? && Identity(targets[i].account) !in accounts
    ensures Runs(targets, i) && observed + [i] == RunsBelow(targets, i + 1)
    ensures match VerdictOn(targets[i], i < |targets| - 1, lastError)
            case Done(result) => Resolve(targets, 0) == Ok(result)
            case Stop(error) => Resolve(targets, 0) == Err(error)
            case GoOn(error) =>
              Reached(targets, i + 1, observed + [i], Some(error),
                if FailsAccount(targets[i]) then accounts + [Identity(targets[i].account)] else accounts)
  {
    RunsIffUnknown(targets, i);
    VerdictIsResult(targets, i);
  }

  /** An ending of the loop without a try. */
  lemma ReachedEnds(
      targets: seq<Target>, i: nat, observed: seq<nat>, lastError: Option<AiError>, accounts: seq<Account>)
    requires Reached(targets, i, observed, lastError, accounts)
    ensures i == |targets| ==> Resolve(targets, 0) == Err(if lastError.Some? then lastError.value else NO_TARGET)
    ensures i < |targets| && targets[i].prepareFails.Some? ==> Resolve(targets, 0) == Err(PrepareFailure(targets[i]))
  {
    PassesTo(targets, i, 0);
  }

  /** One turn of the target loop, for a target that can be prepared: what ends the operation, if anything. */
  method Turn(targets: seq<Target>, i: nat, observed: seq<nat>, lastError: Option<AiError>, usesSlot: bool,
              failedAccounts: FailedAccounts, slots: Slots)
    returns (ending: Option<Result<nat, AiError>>, observed': seq<nat>, lastError': Option<AiError>)
    requires i < |targets| && targets[i].prepareFails.None?
    requires Reached(targets, i, observed, lastError, failedAccounts.accounts)
    modifies failedAccounts, slots
    ensures observed' == RunsBelow(targets, i + 1)
    ensures ending.Some? ==> ending.value == Resolve(targets, 0)
    ensures ending.None? ==> Reached(targets, i + 1, observed', lastError', failedAccounts.accounts)
    ensures Borrowed(old(slots.Now()), slots.Now(),
                     if Runs(targets, i) && TakesSlot(usesSlot, targets[i].outcome) then 1 else 0)
  {
    var target := targets[i];
    if failedAccounts.Has(target.account) {
      ReachedSkips(targets, i, observed, lastError, failedAccounts.accounts);
      return None, observed, lastError;
    }
    ReachedTries(targets, i, observed, lastError, failedAccounts.accounts);
    observed' := observed + [i];
    var verdict := TryTarget(target, usesSlot, i < |targets| - 1, lastError, failedAccounts, slots);
    match verdict
    case Done(result) => return Some(Ok(result)), observed', lastError;
    case Stop(error) => return Some(Err(error)), observed', lastError;
    case GoOn(error) => return None, observed', Some(error);
  }

  /**
    * `runOperation`. The observer is told, in order, of the targets that are tried, up to the one that
    * decides; every slot taken is given back, whatever is returned or thrown, and never two are held at once.
    */
  method RunOperation(targets: seq<Target>, usesSlot: bool, slots: Slots)
    returns (r: Result<nat, AiError>, observed: seq<nat>, ghost n: nat)
    modifies slots
    ensures r == Resolve(targets, 0)
    ensures n <= |targets| && observed == RunsBelow(targets, n)
    ensures forall j :: 0 <= j < n - 1 ==> Passes(targets, j)
    ensures Borrowed(old(slots.Now()), slots.Now(), SlotsTaken(targets, usesSlot, n))
  {
    observed, n := [], 0;
    var lastError: Option<AiError> := None;
    var failedAccounts := new FailedAccounts();
    for i := 0 to |targets|
      invariant n == i && Reached(targets, i, observed, lastError, failedAccounts.accounts)
      invariant fresh(failedAccounts)
      invariant Borrowed(old(slots.Now()), slots.Now(), SlotsTaken(targets, usesSlot, n))
    {
      if targets[i].prepareFails.Some? {
        ReachedEnds(targets, i, observed, lastError, failedAccounts.accounts);
        return Err(PrepareFailure(targets[i])), observed, n;
      }
      n := i + 1;
      var ending;
      ending, observed, lastError := Turn(targets, i, observed, lastError, usesSlot, failedAccounts, slots);
      if ending.Some? {
        return ending.value, observed, n;
      }
    }
    ReachedEnds(targets, |targets|, observed, lastError, failedAccounts.accounts);
    r := Err(if lastError.Some? then lastError.value else NO_TARGET);
  }
}
