/** What the recursive account of the fallback chain means for the caller. */
module FallbackLaws {
  import opened FallbackSpec
  import opened Wrappers

  /** A target is tried exactly when no target before it, of its account, fails for the whole account. */
  lemma {:induction false} RunsIffAccountWorks(targets: seq<Target>, i: nat)
    requires i < |targets|
    ensures Runs(targets, i) <==>
            forall j :: 0 <= j < i ==> !(FailsAccount(targets[j]) && SameAccount(targets[j], targets[i]))
    decreases i
  {
    forall j | 0 <= j < i && FailsAccount(targets[j]) && SameAccount(targets[j], targets[i])
      ensures !Runs(targets, i)
    {
      if !Runs(targets, j) {
        RunsIffAccountWorks(targets, j);
        var k :| 0 <= k < j && Runs(targets, k) && FailsAccount(targets[k]) && SameAccount(targets[k], targets[j]);
        assert SameAccount(targets[k], targets[i]);
      }
    }
  }

  /** The loop passes target `i`: it prepares, and is skipped or fails with an error that allows a fallback. */
  ghost predicate Passes(targets: seq<Target>, i: nat)
    requires i < |targets|
  {
    targets[i].prepareFails.None? && (Runs(targets, i) ==> VerdictAt(targets, i).GoOn?)
  }

  /** Target `n` is the first that is not passed, and decides the result; or all are passed. */
  ghost predicate EndsAt(targets: seq<Target>, n: nat, r: Result<nat, AiError>)
  {
    && n <= |targets| && (forall i :: 0 <= i < n ==> Passes(targets, i))
    && if n == |targets| then
         match LastError(targets, n)
         case None => r == Err(NO_TARGET)
         case Some(error) => r == Err(error)
       else
         && !Passes(targets, n)
         && if targets[n].prepareFails.Some? then r == Err(PrepareFailure(targets[n]))
            else match VerdictAt(targets, n)
                 case Done(result) => r == Ok(result)
                 case Stop(error) => r == Err(error)
                 case GoOn(_) => false
  }

  lemma {:induction false} PassesTo(targets: seq<Target>, n: nat, i: nat)
    requires i <= n <= |targets| && (forall j :: 0 <= j < n ==> Passes(targets, j))
    ensures Resolve(targets, i) == Resolve(targets, n)
    decreases n - i
  {
    if i == n {
    } else {
      assert Passes(targets, i);
      PassesTo(targets, n, i + 1);
    }
  }

  lemma {:induction false} FirstNotPassed(targets: seq<Target>, i: nat) returns (n: nat)
    requires i <= |targets| && (forall j :: 0 <= j < i ==> Passes(targets, j))
    ensures EndsAt(targets, n, Resolve(targets, i))
    decreases |targets| - i
  {
    if i == |targets| || !Passes(targets, i) {
      n := i;
    } else {
      n := FirstNotPassed(targets, i + 1);
    }
  }

  /** The recursion computes a result exactly when the first target that is not passed decides it. */
  lemma ResolveIffEnds(targets: seq<Target>, r: Result<nat, AiError>)
    ensures Resolve(targets, 0) == r <==> exists n :: EndsAt(targets, n, r)
  {
    var m := FirstNotPassed(targets, 0);
    forall n | EndsAt(targets, n, r) ensures Resolve(targets, 0) == r {
      PassesTo(targets, n, 0);
    }
  }

  /** A target with an account of its own, in a call without hooks, an abort signal or a budget. */
  function Plain(provider: string, prepareFails: Option<Thrown>, outcome: Outcome): Target
  {
    Target(provider, "m", prepareFails, Account(provider, None, None), outcome, None, false, None)
  }

  const FAILING := Plain("a", None, Throws(Request, Problem("down", true), false))
  const UNPREPARED := Plain("b", Some(Problem("no key", false)), Succeeds(1))
  const WORKING := Plain("c", None, Succeeds(2))

  /** A backup that cannot be prepared hides one behind it that works. */
  lemma BadBackupEnds()
    ensures Resolve([FAILING, UNPREPARED, WORKING], 0) == Err(PrepareFailure(UNPREPARED))
    ensures Resolve([FAILING, WORKING], 0) == Ok(2)
  {
    var three, two := [FAILING, UNPREPARED, WORKING], [FAILING, WORKING];
    assert VerdictAt(three, 0).GoOn? && EndsAt(three, 1, Err(PrepareFailure(UNPREPARED)));
    ResolveIffEnds(three, Err(PrepareFailure(UNPREPARED)));
    RunsIffAccountWorks(two, 1);
    assert VerdictAt(two, 0).GoOn? && EndsAt(two, 1, Ok(2));
    ResolveIffEnds(two, Ok(2));
  }

  /** An operation succeeds exactly with the first target that succeeds, all those before it being passed. */
  lemma SuccessIsFirst(targets: seq<Target>, result: nat)
    ensures Resolve(targets, 0) == Ok(result) <==>
            exists n :: 0 <= n < |targets| && (forall i :: 0 <= i < n ==> Passes(targets, i))
                        && targets[n].prepareFails.None? && Runs(targets, n)
                        && targets[n].outcome == Succeeds(result)
  {
    ResolveIffEnds(targets, Ok(result));
    forall n | 0 <= n < |targets| && (forall i :: 0 <= i < n ==> Passes(targets, i))
               && targets[n].prepareFails.None? && Runs(targets, n) && targets[n].outcome == Succeeds(result)
      ensures EndsAt(targets, n, Ok(result))
    {
    }
  }

  // ---------------------------------------------------------------- which failures a backup may answer

  /** A failure of the service or the account, and not of what was asked. */
  predicate IsElsewhere(error: AiError) { error.status == Some(429) || error.details.accountFailure }

  predicate IsClientError(error: AiError) { error.status.Some? && 400 <= error.status.value <= 499 }

  /** Which errors a backup may answer, kind by kind: never a refusal or a spent budget, always a missing key. */
  predicate KindAllows(error: AiError)
  {
    match error.code
    case Refusal => false
    case RequestBudgetExceeded => false
    case MissingApiKey => true
    case ConfigError => error.details.unsupportedFunctionCalling || IsElsewhere(error)
    case RateLimited => IsElsewhere(error) || !IsClientError(error)
    case ProviderError => IsElsewhere(error) || !IsClientError(error)
    case OtherCode(_) => IsElsewhere(error)
  }

  /** A failure names the target, ends in the words of what was thrown, and is otherwise what was thrown. */
  lemma FailureNamesTarget(thrown: Thrown, t: Target)
    ensures var failure := TargetFailure(thrown, t);
            && failure.provider == t.provider && failure.model == Some(t.model)
            && match thrown
               case Ai(error) =>
                 && failure.message == "[provider: " + t.provider + ", model: " + t.model + "] " + error.message
                 && failure.code == error.code && failure.status == error.status
                 && failure.retriable == error.retriable && failure.details == error.details
               case BudgetError(message) =>
                 && failure.message == "[provider: " + t.provider + ", model: " + t.model + "] " + message
                 && failure.code == RequestBudgetExceeded && failure.status.None? && !failure.retriable
               case RangeProblem(message) =>
                 && failure.message == "[provider: " + t.provider + ", model: " + t.model + "] " + message
                 && failure.code == ConfigError && failure.status.None? && !failure.retriable
               case Problem(message, transient) =>
                 && failure.message == "[provider: " + t.provider + ", model: " + t.model + "] " + message
                 && failure.code == ProviderError && failure.status.None? && failure.retriable == transient
  {
  }

  /** A target that cannot be prepared fails with the provider's own error, or else like a bad setting. */
  lemma UnpreparedIsSetting(t: Target)
    requires t.prepareFails.Some?
    ensures var thrown := t.prepareFails.value;
            PrepareFailure(t) == TargetFailure(if thrown.Ai? then thrown else RangeProblem(thrown.message), t)
  {
  }

  /** What a backup may answer of all that can be thrown: neither a spent budget nor a bad setting. */
  predicate Answerable(thrown: Thrown)
  {
    match thrown
    case Ai(error) => KindAllows(error)
    case BudgetError(_) => false
    case RangeProblem(_) => false
    case Problem(_, _) => true
  }

  /** What was thrown decides whether the next target may be tried, whichever target it was. */
  lemma FallbackIffAnswerable(thrown: Thrown, t: Target)
    ensures ShouldFallback(TargetFailure(thrown, t)) <==> Answerable(thrown)
  {
  }

  /** What an attempt ends in: an abort in a hook replaces what the target threw. */
  function ThrownBy(t: Target): Thrown
    requires t.outcome.Throws?
  {
    if t.hookAbort.Some? then t.hookAbort.value else t.outcome.thrown
  }

  /**
    * When the next target gets its turn after one that failed by itself: there is one, nobody has stopped the
    * call, the budget is not spent, and a backup may answer what was thrown.
    */
  lemma FailedIsPassedIff(targets: seq<Target>, i: nat)
    requires i < |targets| && targets[i].prepareFails.None? && Runs(targets, i) && targets[i].outcome.Throws?
    requires ThrownBy(targets[i]).Ai? ==> !ThrownBy(targets[i]).error.details.fallbackSkipped
    ensures Passes(targets, i) <==>
            && i + 1 < |targets| && !targets[i].aborted && targets[i].exhausted.None?
            && Answerable(ThrownBy(targets[i]))
  {
    FallbackIffAnswerable(ThrownBy(targets[i]), targets[i]);
  }

  /** A call with a working backup: the backup answers, or the first failure is thrown with its target named. */
  lemma BackupAnswersIff(thrown: Thrown)
    ensures var first := Plain("a", None, Throws(Request, thrown, false));
            Resolve([first, WORKING], 0) == if Answerable(thrown) then Ok(2) else Err(TargetFailure(thrown, first))
  {
    var first := Plain("a", None, Throws(Request, thrown, false));
    var two := [first, WORKING];
    FallbackIffAnswerable(thrown, first);
    RunsIffAccountWorks(two, 1);
    if Answerable(thrown) {
      assert VerdictAt(two, 0).GoOn? && EndsAt(two, 1, Ok(2));
      ResolveIffEnds(two, Ok(2));
    } else {
      assert VerdictAt(two, 0) == Stop(TargetFailure(thrown, first));
      assert EndsAt(two, 0, Err(TargetFailure(thrown, first)));
      ResolveIffEnds(two, Err(TargetFailure(thrown, first)));
    }
  }

  /** Accounts are the same if their providers and keys are, and their addresses up to slashes at the end. */
  lemma {:induction false} OnlySlashesGo(url: string)
    ensures TrimSlashes(url) <= url && (forall i :: |TrimSlashes(url)| <= i < |url| ==> url[i] == '/')
    ensures TrimSlashes(url) != "" ==> TrimSlashes(url)[|TrimSlashes(url)| - 1] != '/'
  {
    if url != "" && url[|url| - 1] == '/' {
      OnlySlashesGo(url[..|url| - 1]);
    }
  }

  /** The last target before `i` that was tried and was not itself skipped without a request; else the first tried. */
  ghost predicate IsCause(targets: seq<Target>, i: nat, k: nat)
    requires i <= |targets|
  {
    && k < i && Runs(targets, k) && targets[k].outcome.Throws?
    && (forall j :: k < j < i && Runs(targets, j) && targets[j].outcome.Throws? ==>
          Attempted(targets[j]).details.fallbackSkipped)
    && (Attempted(targets[k]).details.fallbackSkipped ==>
          forall j :: 0 <= j < k ==> !(Runs(targets, j) && targets[j].outcome.Throws?))
  }

  /** Skipped fallbacks never hide why the operation failed: only the message of the real failure grows. */
  lemma {:induction false} CauseIsKept(targets: seq<Target>, i: nat) returns (k: nat)
    requires i <= |targets| && LastError(targets, i).Some?
    ensures IsCause(targets, i, k)
    ensures LastError(targets, i).value == Attempted(targets[k]).(message := LastError(targets, i).value.message)
    ensures Attempted(targets[k]).message <= LastError(targets, i).value.message
  {
    var last := i - 1;
    if Runs(targets, last) && targets[last].outcome.Throws? {
      if Attempted(targets[last]).details.fallbackSkipped && LastError(targets, last).Some? {
        k := CauseIsKept(targets, last);
      } else {
        NoneRemembered(targets, last);
        k := last;
      }
    } else {
      k := CauseIsKept(targets, last);
    }
  }

  lemma {:induction false} NoneRemembered(targets: seq<Target>, i: nat)
    requires i <= |targets|
    ensures LastError(targets, i).None? <==>
            forall j :: 0 <= j < i ==> !(Runs(targets, j) && targets[j].outcome.Throws?)
  {
    if i == 0 {
    } else {
      NoneRemembered(targets, i - 1);
    }
  }

  /**
    * A fallback that was skipped without a request leaves the chain as eligible as it was. Alone it ends an
    * operation only as the last target, by the caller's signal, or by the budget.
    */
  lemma SkippedStaysEligible(previous: AiError, t: Target, canFallback: bool)
    requires t.outcome.Throws? && Attempted(t).details.fallbackSkipped
    ensures ShouldFallback(Merged(Some(previous), Attempted(t))) == ShouldFallback(previous)
    ensures ShouldFallback(previous) && canFallback && !t.aborted && t.exhausted.None? ==>
              VerdictOn(t, canFallback, Some(previous)).GoOn?
  {
  }
}
