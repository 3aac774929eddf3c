/** What `createServerRecovery` of `apps/desktop/src/server-recovery.ts` promises, told about its history. */
module RecoverySpec {
  import opened Wrappers

  /** What happened to a recovery, and what it did. */
  datatype Entry =
    | Readied(owner: nat) | Exited(owner: nat) | Cancelled | Reset | Stable(owner: nat)
    | Scheduled(attempt: nat, delay: nat) | Started | Settled(resolved: bool)
    | Navigated | Up(attempts: nat) | Down(attempts: nat)

  datatype History = Begin | Then(before: History, last: Entry)

  /** How often recovery has been cancelled. */
  function Generation(h: History): nat
  {
    match h
    case Begin => 0
    case Then(before, last) => Generation(before) + if last == Cancelled then 1 else 0
  }

  /** The sidecar that became ready last, unless it has exited or was cancelled. */
  function ReadyOwner(h: History): Option<nat>
  {
    match h
    case Begin => None
    case Then(before, Readied(owner)) => Some(owner)
    case Then(before, Exited(owner)) => if ReadyOwner(before) == Some(owner) then None else ReadyOwner(before)
    case Then(before, Cancelled) => None
    case Then(before, _) => ReadyOwner(before)
  }

  /** The generation of the restart that has started and not settled. */
  function Running(h: History): Option<nat>
  {
    match h
    case Begin => None
    case Then(before, Started) => Some(Generation(before))
    case Then(before, Settled(_)) => None
    case Then(before, _) => Running(before)
  }

  /** A restart is scheduled and has neither started nor been cancelled. */
  predicate Waiting(h: History)
  {
    match h
    case Begin => false
    case Then(before, Scheduled(_, _)) => true
    case Then(before, Started) => false
    case Then(before, Cancelled) => false
    case Then(before, _) => Waiting(before)
  }

  /** The ready sidecar that has not yet been found stable. */
  function Proving(h: History): Option<nat>
  {
    match h
    case Begin => None
    case Then(before, Readied(owner)) => Some(owner)
    case Then(before, Exited(owner)) => if ReadyOwner(before) == Some(owner) then None else Proving(before)
    case Then(before, Cancelled) => None
    case Then(before, Stable(_)) => None
    case Then(before, _) => Proving(before)
  }

  /** A sidecar has become ready since recovery was last cancelled: only then is there anything to recover. */
  predicate Armed(h: History)
  {
    match h
    case Begin => false
    case Then(_, Readied(_)) => true
    case Then(_, Cancelled) => false
    case Then(before, _) => Armed(before)
  }

  /** The budget is new: the application has reset it, or a sidecar was stable. */
  predicate Renews(entry: Entry) { entry == Reset || entry.Stable? }

  function RestartsSinceReset(h: History): nat
  {
    match h
    case Begin => 0
    case Then(before, last) => if Renews(last) then 0 else RestartsSinceReset(before) + if last == Started then 1 else 0
  }

  function ScheduledSinceReset(h: History): nat
  {
    match h
    case Begin => 0
    case Then(before, last) =>
      if Renews(last) then 0 else ScheduledSinceReset(before) + if last.Scheduled? then 1 else 0
  }

  /** The ready sidecar exited, and since then none became ready, nothing was cancelled, no "down" was reported. */
  predicate RecoveryOwed(h: History)
  {
    match h
    case Begin => false
    case Then(before, Exited(owner)) => ReadyOwner(before) == Some(owner) || RecoveryOwed(before)
    case Then(before, Readied(_)) => false
    case Then(before, Cancelled) => false
    case Then(before, Down(_)) => false
    case Then(before, _) => RecoveryOwed(before)
  }

  datatype Config = Config(maxAttempts: nat, retryBaseMs: nat)

  const MAX_DELAY_MS := 15_000

  function Power2(n: nat): nat { if n == 0 then 1 else 2 * Power2(n - 1) }

  /** The wait before a restart doubles with every attempt, up to a bound. */
  function Delay(config: Config, attempts: nat): nat
  {
    var delay := config.retryBaseMs * Power2(attempts);
    if delay < MAX_DELAY_MS then delay else MAX_DELAY_MS
  }

  /** It starts at the base, doubles with every attempt, and stops growing at the bound. */
  lemma DelayDoubles(config: Config, attempts: nat)
    ensures Delay(config, 0) == if config.retryBaseMs < MAX_DELAY_MS then config.retryBaseMs else MAX_DELAY_MS
    ensures Delay(config, attempts) <= MAX_DELAY_MS
    ensures Delay(config, attempts + 1) ==
            if 2 * Delay(config, attempts) < MAX_DELAY_MS then 2 * Delay(config, attempts) else MAX_DELAY_MS
  {
    assert config.retryBaseMs * Power2(attempts + 1) == 2 * (config.retryBaseMs * Power2(attempts));
  }

  /** When an entry may follow a history. */
  predicate MayFollow(config: Config, h: History, entry: Entry)
  {
    match entry
    case Scheduled(attempt, delay) =>
      && Armed(h) && ReadyOwner(h).None? && !Waiting(h) && Running(h).None?
      && attempt == ScheduledSinceReset(h) + 1 <= config.maxAttempts && delay == Delay(config, attempt - 1)
    case Started => Waiting(h) && Running(h).None? && RestartsSinceReset(h) < ScheduledSinceReset(h)
    case Settled(resolved) =>
      && Running(h).Some?
      && (resolved && Running(h) == Some(Generation(h)) && ReadyOwner(h).Some? ==> h.Then? && h.last.Up?)
    case Stable(owner) => Proving(h) == ReadyOwner(h) == Some(owner)
    case Navigated => Running(h) == Some(Generation(h)) && ReadyOwner(h).Some?
    case Up(attempts) => h.Then? && h.last == Navigated && attempts == ScheduledSinceReset(h)
    case Down(attempts) => Armed(h) && ReadyOwner(h).None? && attempts == ScheduledSinceReset(h) == config.maxAttempts
    case _ => true
  }

  /** Every entry was allowed when it was made. */
  predicate Lawful(config: Config, h: History)
  {
    match h
    case Begin => true
    case Then(before, last) => Lawful(config, before) && MayFollow(config, before, last)
  }

  /** Since the budget was reset, no more restarts have started than were scheduled, which is bounded. */
  lemma {:induction false} BudgetHolds(config: Config, h: History)
    requires Lawful(config, h)
    ensures RestartsSinceReset(h) <= ScheduledSinceReset(h) <= config.maxAttempts
  {
    match h
    case Begin =>
    case Then(before, _) => BudgetHolds(config, before);
  }

  /** The restarts that run, counted. */
  function StartedLessSettled(h: History): int
  {
    match h
    case Begin => 0
    case Then(before, last) =>
      StartedLessSettled(before) + if last == Started then 1 else if last.Settled? then -1 else 0
  }

  /** At most one restart runs at a time. */
  lemma {:induction false} OneAtATime(config: Config, h: History)
    requires Lawful(config, h)
    ensures StartedLessSettled(h) == if Running(h).Some? then 1 else 0
  {
    match h
    case Begin =>
    case Then(before, _) => OneAtATime(config, before);
  }

  /** `h` goes on from `earlier` with entries none of which is `Settled`. */
  predicate UnsettledSince(earlier: History, h: History)
  {
    h == earlier || (h.Then? && !h.last.Settled? && UnsettledSince(earlier, h.before))
  }

  lemma {:induction false} RunningIsNotAhead(h: History)
    ensures Running(h).Some? ==> Running(h).value <= Generation(h)
  {
    match h
    case Begin =>
    case Then(before, _) => RunningIsNotAhead(before);
  }

  /** Until a restart that was cancelled while it ran has settled, nothing navigates, starts or is scheduled. */
  lemma {:induction false} CancelledNeverNavigates(config: Config, earlier: History, h: History)
    requires Lawful(config, h) && Running(earlier).Some? && UnsettledSince(Then(earlier, Cancelled), h)
    ensures Running(h).Some? && Running(h).value < Generation(h)
    ensures forall entry :: MayFollow(config, h, entry) ==> !entry.Navigated? && !entry.Started? && !entry.Scheduled?
    decreases h
  {
    if h == Then(earlier, Cancelled) {
      RunningIsNotAhead(earlier);
    } else {
      CancelledNeverNavigates(config, earlier, h.before);
    }
  }

  /** `h` goes on from `earlier` with entries none of which is `Readied`. */
  predicate NoneReadySince(earlier: History, h: History)
  {
    h == earlier || (h.Then? && !h.last.Readied? && NoneReadySince(earlier, h.before))
  }

  /**
    * After a cancellation, until another sidecar becomes ready, nothing is scheduled, started, navigated to or
    * given up, whether or not a restart that was in flight has settled.
    */
  lemma {:induction false} CancelledStaysQuiet(config: Config, earlier: History, h: History)
    requires Lawful(config, h) && NoneReadySince(Then(earlier, Cancelled), h)
    ensures !Armed(h) && ReadyOwner(h).None? && !Waiting(h)
    ensures forall entry :: MayFollow(config, h, entry) ==>
              !entry.Scheduled? && !entry.Started? && !entry.Navigated? && !entry.Down?
    decreases h
  {
    if h == Then(earlier, Cancelled) {
    } else {
      CancelledStaysQuiet(config, earlier, h.before);
    }
  }

  /**
    * A restart that resolves while it is current, with a sidecar ready, has taken the window to it and then
    * reported it "up".
    */
  lemma ResolvedIsShown(config: Config, h: History)
    requires Lawful(config, Then(h, Settled(true)))
    requires Running(h) == Some(Generation(h)) && ReadyOwner(h).Some?
    ensures h.Then? && h.last == Up(ScheduledSinceReset(h)) && h.before.Then? && h.before.last == Navigated
    ensures ReadyOwner(h.before.before) == ReadyOwner(h) && Running(h.before.before) == Running(h)
  {
  }
}
