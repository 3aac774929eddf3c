/**
  * The sidecar recovery of `apps/desktop/src/server-recovery.ts`, and what the order of calls in
  * `apps/desktop/src/main.ts` is for. Timers fire and restarts settle in events of their own.
  */
module ServerRecovery {
  import opened RecoverySpec
  import opened Wrappers

  datatype Event =
    | Ready(owner: nat) | Exit(owner: nat) | Cancel | ResetBudget
    | RestartTimerFires | StableTimerFires | RestartSettles(ok: bool)

  /** Each timer with the value its callback captured. */
  datatype State = State(
    readyOwner: Option<nat>, attempts: nat, restartTimer: Option<nat>, stableTimer: Option<nat>,
    inFlight: Option<nat>, generation: nat, history: History)
  {
    function Log(entry: Entry): State { this.(history := Then(history, entry)) }
  }

  const START := State(None, 0, None, None, None, 0, Begin)

  function Scheduling(config: Config, s: State): State
  {
    if s.restartTimer.Some? || s.inFlight.Some? then s
    else if s.attempts >= config.maxAttempts then s.Log(Down(s.attempts))
    else s.(attempts := s.attempts + 1, restartTimer := Some(s.generation))
          .Log(Scheduled(s.attempts + 1, Delay(config, s.attempts)))
  }

  function Settling(config: Config, s: State, ok: bool): State
    requires s.inFlight.Some?
  {
    var current := s.inFlight.value == s.generation;
    var told := if ok && current && s.readyOwner.Some? then s.Log(Navigated).Log(Up(s.attempts)) else s;
    var after := told.(inFlight := None).Log(Settled(ok));
    if current && s.readyOwner.None? then Scheduling(config, after) else after
  }

  /** Timers that are not set do not fire, and a restart that is not in flight does not settle. */
  predicate Possible(s: State, event: Event)
  {
    match event
    case RestartTimerFires => s.restartTimer.Some?
    case StableTimerFires => s.stableTimer.Some?
    case RestartSettles(_) => s.inFlight.Some?
    case _ => true
  }

  function Step(config: Config, s: State, event: Event): State
    requires Possible(s, event)
  {
    match event
    case Ready(owner) => s.(readyOwner := Some(owner), stableTimer := Some(owner)).Log(Readied(owner))
    case Exit(owner) =>
      if s.readyOwner != Some(owner) then s.Log(Exited(owner))
      else Scheduling(config, s.(readyOwner := None, stableTimer := None).Log(Exited(owner)))
    case Cancel =>
      s.(generation := s.generation + 1, readyOwner := None, restartTimer := None, stableTimer := None)
       .Log(Cancelled)
    case ResetBudget => s.(attempts := 0).Log(Reset)
    case RestartTimerFires => s.(restartTimer := None, inFlight := s.restartTimer).Log(Started)
    case StableTimerFires =>
      if s.readyOwner == s.stableTimer then s.(attempts := 0, stableTimer := None).Log(Stable(s.stableTimer.value))
      else s.(stableTimer := None)
    case RestartSettles(ok) => Settling(config, s, ok)
  }

  /** A sidecar becomes ready with none ready and no restart scheduled; the budget is reset so too. */
  predicate Allowed(s: State, event: Event)
  {
    && Possible(s, event)
    && match event
       case Ready(_) => s.readyOwner.None? && s.restartTimer.None?
       case ResetBudget => s.restartTimer.None?
       case _ => true
  }

  /** A restart that was cancelled is still in flight. */
  predicate Stale(s: State) { s.inFlight.Some? && s.inFlight.value != s.generation }

  /** The fields agree with the history, which is lawful. */
  predicate Agrees(config: Config, s: State)
  {
    && s.readyOwner == ReadyOwner(s.history) && s.generation == Generation(s.history)
    && s.inFlight == Running(s.history) && s.restartTimer.Some? == Waiting(s.history)
    && (s.restartTimer.Some? ==> s.restartTimer.value == s.generation && s.inFlight.None? && s.readyOwner.None?)
    && (s.readyOwner.Some? || s.restartTimer.Some? || s.inFlight == Some(s.generation) ==> Armed(s.history))
    && s.stableTimer == Proving(s.history) && (s.stableTimer.Some? ==> s.readyOwner == s.stableTimer)
    && RestartsSinceReset(s.history) + (if s.restartTimer.Some? then 1 else 0) <= s.attempts
    && s.attempts == ScheduledSinceReset(s.history) <= config.maxAttempts
    && Lawful(config, s.history)
  }

  /** Recovery that is owed is under way. */
  predicate Recovering(s: State)
  {
    RecoveryOwed(s.history) ==> s.restartTimer.Some? || s.inFlight == Some(s.generation)
  }

  lemma SchedulingRecovers(config: Config, s: State)
    requires Agrees(config, s) && s.readyOwner.None? && Armed(s.history)
    requires s.inFlight.Some? ==> s.inFlight.value == s.generation
    ensures Agrees(config, Scheduling(config, s)) && Recovering(Scheduling(config, s))
  {
  }

  /** What is owed is owed for a sidecar that is gone. */
  lemma {:induction false} OwedMeansGone(h: History)
    ensures RecoveryOwed(h) ==> ReadyOwner(h).None?
  {
    match h
    case Begin =>
    case Then(before, _) => OwedMeansGone(before);
  }

  lemma SettlingRecovers(config: Config, s: State, ok: bool)
    requires Agrees(config, s) && s.inFlight.Some?
    ensures Agrees(config, Settling(config, s, ok)) && (Recovering(s) ==> Recovering(Settling(config, s, ok)))
  {
    var current := s.inFlight.value == s.generation;
    var told := if ok && current && s.readyOwner.Some? then s.Log(Navigated).Log(Up(s.attempts)) else s;
    assert Agrees(config, s.Log(Navigated)) || told == s;
    assert Agrees(config, told) && RecoveryOwed(told.history) == RecoveryOwed(s.history);
    var after := told.(inFlight := None).Log(Settled(ok));
    assert Agrees(config, after) && RecoveryOwed(after.history) == RecoveryOwed(s.history);
    OwedMeansGone(s.history);
    if current && s.readyOwner.None? {
      SchedulingRecovers(config, after);
    }
  }

  /** The sidecar that is ready exits while a cancelled restart is in flight. */
  predicate Abandons(s: State, event: Event) { event.Exit? && s.readyOwner == Some(event.owner) && Stale(s) }

  lemma CancelAgrees(config: Config, s: State)
    requires Agrees(config, s)
    ensures Agrees(config, Step(config, s, Cancel)) && Recovering(Step(config, s, Cancel))
  {
    RunningIsNotAhead(s.history);
  }

  lemma FiringAgrees(config: Config, s: State, event: Event)
    requires Agrees(config, s) && Possible(s, event)
    requires event.RestartTimerFires? || event.StableTimerFires?
    ensures Agrees(config, Step(config, s, event)) && (Recovering(s) ==> Recovering(Step(config, s, event)))
  {
  }

  lemma ExitAgrees(config: Config, s: State, owner: nat)
    requires Agrees(config, s)
    ensures Agrees(config, Step(config, s, Exit(owner)))
    ensures Recovering(s) && s.readyOwner != Some(owner) ==> Recovering(Step(config, s, Exit(owner)))
    ensures s.readyOwner == Some(owner) ==> (Recovering(Step(config, s, Exit(owner))) <==> !Stale(s))
  {
    if s.readyOwner == Some(owner) && !Stale(s) {
      SchedulingRecovers(config, s.(readyOwner := None, stableTimer := None).Log(Exited(owner)));
    }
  }

  /**
    * Every step keeps the history lawful; recovery that is owed stays under way exactly unless the ready sidecar
    * exits while a cancelled restart is in flight.
    */
  lemma StepRecovers(config: Config, s: State, event: Event)
    requires Agrees(config, s) && Allowed(s, event)
    ensures Agrees(config, Step(config, s, event)) && Lawful(config, Step(config, s, event).history)
    ensures Recovering(s) ==> (Recovering(Step(config, s, event)) <==> !Abandons(s, event))
  {
    match event
    case Exit(owner) => ExitAgrees(config, s, owner);
    case RestartSettles(ok) => SettlingRecovers(config, s, ok);
    case Cancel => CancelAgrees(config, s);
    case RestartTimerFires => FiringAgrees(config, s, event);
    case StableTimerFires => FiringAgrees(config, s, event);
    case _ =>
  }

  /**
    * The exit of the ready sidecar leaves a timer, a restart of this generation or "down", exactly unless a
    * cancelled restart is in flight when it exits.
    */
  lemma ExitIsAnsweredIff(config: Config, s: State, owner: nat)
    requires Agrees(config, s) && s.readyOwner == Some(owner)
    ensures var next := Step(config, s, Exit(owner));
            next.restartTimer.Some? || next.inFlight == Some(next.generation)
            || (next.history.Then? && next.history.last == Down(config.maxAttempts))
            <==> !Stale(s)
  {
    ExitAgrees(config, s, owner);
  }

  // ---------------------------------------------------------------- runs

  /** The state after an event that is allowed; others are passed over. */
  function After(config: Config, s: State, event: Event): State
  {
    if Allowed(s, event) then Step(config, s, event) else s
  }

  function Follow(config: Config, s: State, events: seq<Event>): State
    decreases |events|
  {
    if events == [] then s else Follow(config, After(config, s, events[0]), events[1..])
  }

  /** At every moment of the run, recovery that is owed is under way. */
  predicate AlwaysRecovering(config: Config, s: State, events: seq<Event>)
    decreases |events|
  {
    Recovering(s) && (events == [] || AlwaysRecovering(config, After(config, s, events[0]), events[1..]))
  }

  /** At no moment of the run does the ready sidecar exit while a cancelled restart is in flight. */
  predicate NeverAbandons(config: Config, s: State, events: seq<Event>)
    decreases |events|
  {
    events == [] || (!Abandons(s, events[0]) && NeverAbandons(config, After(config, s, events[0]), events[1..]))
  }

  /**
    * Over any events, with any number of them between a sidecar's start and its exit: recovery is always under
    * way exactly if no ready sidecar exits while a cancelled restart is in flight.
    */
  lemma {:induction false} RecoversIff(config: Config, s: State, events: seq<Event>)
    requires Agrees(config, s) && Recovering(s)
    ensures AlwaysRecovering(config, s, events) <==> NeverAbandons(config, s, events)
    decreases |events|
  {
    if events == [] {
    } else {
      if Allowed(s, events[0]) {
        StepRecovers(config, s, events[0]);
      }
      if Recovering(After(config, s, events[0])) {
        RecoversIff(config, After(config, s, events[0]), events[1..]);
      }
    }
  }

  /** A sidecar becomes ready only when no cancelled restart is in flight: the application awaits `cancel()`. */
  predicate Orderly(config: Config, s: State, events: seq<Event>)
    decreases |events|
  {
    events == []
    || ((events[0].Ready? && Allowed(s, events[0]) ==> !Stale(s))
        && Orderly(config, After(config, s, events[0]), events[1..]))
  }

  lemma StaysPaired(config: Config, s: State, event: Event)
    requires Agrees(config, s) && Allowed(s, event) && (s.readyOwner.Some? ==> !Stale(s))
    requires event.Ready? ==> !Stale(s)
    ensures var next := Step(config, s, event); next.readyOwner.Some? ==> !Stale(next)
  {
  }

  /** In the order that the application keeps, recovery is always under way. */
  lemma {:induction false} OrderlyRecovers(config: Config, s: State, events: seq<Event>)
    requires Agrees(config, s) && Recovering(s) && (s.readyOwner.Some? ==> !Stale(s))
    requires Orderly(config, s, events)
    ensures AlwaysRecovering(config, s, events)
    decreases |events|
  {
    if events == [] {
    } else {
      if Allowed(s, events[0]) {
        StepRecovers(config, s, events[0]);
        StaysPaired(config, s, events[0]);
      }
      OrderlyRecovers(config, After(config, s, events[0]), events[1..]);
    }
  }

  /** Recovery is owed, and neither a timer nor a restart of this generation is there to provide it. */
  predicate Lost(s: State)
  {
    RecoveryOwed(s.history) && s.readyOwner.None? && s.restartTimer.None? && s.inFlight != Some(s.generation)
  }

  /** What was lost stays lost, whatever happens, until a sidecar becomes ready or recovery is cancelled. */
  lemma {:induction false} LostStays(config: Config, s: State, events: seq<Event>)
    requires Agrees(config, s) && Lost(s)
    requires forall i :: 0 <= i < |events| ==> !events[i].Ready? && !events[i].Cancel?
    ensures Lost(Follow(config, s, events))
    decreases |events|
  {
    if events == [] {
    } else {
      if Allowed(s, events[0]) {
        StepRecovers(config, s, events[0]);
      }
      LostStays(config, After(config, s, events[0]), events[1..]);
    }
  }

  /** A run that ends so: a sidecar becomes ready and exits while a cancelled restart is in flight. */
  lemma StartDuringCancelledRestart(config: Config)
    requires config.maxAttempts > 0
    ensures var lost := Follow(config, START, [Ready(1), Exit(1), RestartTimerFires, Cancel, Ready(2), Exit(2)]);
            Agrees(config, lost) && Lost(lost)
  {
    var ready := Step(config, START, Ready(1));
    var exited := Step(config, ready, Exit(1));
    var started := Step(config, exited, RestartTimerFires);
    var cancelled := Step(config, started, Cancel);
    var second := Step(config, cancelled, Ready(2));
    assert Agrees(config, START) && Recovering(START);
    Follows(config, START, Ready(1), [Exit(1), RestartTimerFires, Cancel, Ready(2), Exit(2)]);
    Follows(config, ready, Exit(1), [RestartTimerFires, Cancel, Ready(2), Exit(2)]);
    Follows(config, exited, RestartTimerFires, [Cancel, Ready(2), Exit(2)]);
    Follows(config, started, Cancel, [Ready(2), Exit(2)]);
    Follows(config, cancelled, Ready(2), [Exit(2)]);
    Follows(config, second, Exit(2), []);
    assert RecoveryOwed(Step(config, second, Exit(2)).history);
  }

  lemma Follows(config: Config, s: State, event: Event, events: seq<Event>)
    requires Agrees(config, s) && Allowed(s, event)
    ensures Follow(config, s, [event] + events) == Follow(config, Step(config, s, event), events)
    ensures Agrees(config, Step(config, s, event))
  {
    StepRecovers(config, s, event);
    assert ([event] + events)[1..] == events;
  }

  // ---------------------------------------------------------------- what is told of a run

  /** What follows when the sidecar is gone: the next attempt, or "down" with the budget used up. */
  function Answered(config: Config, h: History): History
  {
    var used := ScheduledSinceReset(h);
    if Waiting(h) || Running(h).Some? then h
    else if used < config.maxAttempts then Then(h, Scheduled(used + 1, Delay(config, used)))
    else Then(h, Down(used))
  }

  /** The entries that an event adds, decided by the entries before it and no field. */
  function Told(config: Config, h: History, event: Event): History
  {
    match event
    case Ready(owner) => Then(h, Readied(owner))
    case Exit(owner) =>
      if ReadyOwner(h) == Some(owner) then Answered(config, Then(h, Exited(owner))) else Then(h, Exited(owner))
    case Cancel => Then(h, Cancelled)
    case ResetBudget => Then(h, Reset)
    case RestartTimerFires => Then(h, Started)
    case StableTimerFires => if Proving(h).Some? then Then(h, Stable(Proving(h).value)) else h
    case RestartSettles(ok) =>
      var isCurrent := Running(h) == Some(Generation(h));
      if isCurrent && ReadyOwner(h).None? then Answered(config, Then(h, Settled(ok)))
      else if isCurrent && ok then Then(Then(Then(h, Navigated), Up(ScheduledSinceReset(h))), Settled(ok))
      else Then(h, Settled(ok))
  }

  /** When an event may happen, by the entries before it. */
  predicate MayHappen(h: History, event: Event)
  {
    match event
    case Ready(_) => ReadyOwner(h).None? && !Waiting(h)
    case ResetBudget => !Waiting(h)
    case RestartTimerFires => Waiting(h)
    case StableTimerFires => Proving(h).Some?
    case RestartSettles(_) => Running(h).Some?
    case _ => true
  }

  /** The entries of a run. */
  function Tell(config: Config, h: History, events: seq<Event>): History
    decreases |events|
  {
    if events == [] then h
    else Tell(config, if MayHappen(h, events[0]) then Told(config, h, events[0]) else h, events[1..])
  }

  /** Each event writes the entries that tell of it, and the fields have no other say in them. */
  lemma StepTells(config: Config, s: State, event: Event)
    requires Agrees(config, s)
    ensures Allowed(s, event) <==> MayHappen(s.history, event)
    ensures Allowed(s, event) ==> Step(config, s, event).history == Told(config, s.history, event)
  {
  }

  /** So it is over any events: the fields serve the history. */
  lemma {:induction false} RunTells(config: Config, s: State, events: seq<Event>)
    requires Agrees(config, s)
    ensures Follow(config, s, events).history == Tell(config, s.history, events)
    decreases |events|
  {
    if events == [] {
    } else {
      StepTells(config, s, events[0]);
      if Allowed(s, events[0]) {
        StepRecovers(config, s, events[0]);
      }
      RunTells(config, After(config, s, events[0]), events[1..]);
    }
  }

  /** After a reset of the budget, the next exit starts over with the first attempt and the shortest wait. */
  lemma ResetRenews(config: Config, s: State, owner: nat)
    requires Agrees(config, s) && s.readyOwner == Some(owner) && s.inFlight.None? && config.maxAttempts > 0
    ensures Allowed(s, ResetBudget)
    ensures Step(config, Step(config, s, ResetBudget), Exit(owner)).history ==
            Then(Then(Then(s.history, Reset), Exited(owner)), Scheduled(1, Delay(config, 0)))
  {
    StepTells(config, s, ResetBudget);
  }

  lemma RestartRenews(config: Config, s: State, owner: nat)
    requires Agrees(config, s) && config.maxAttempts > 0
    requires s.readyOwner.None? && s.restartTimer.None? && s.inFlight.None?
    ensures var events := [ResetBudget, Ready(owner), Exit(owner)];
            && Orderly(config, s, events)
            && Follow(config, s, events).history.Then?
            && Follow(config, s, events).history.last == Scheduled(1, Delay(config, 0))
  {
    var reset := Step(config, s, ResetBudget);
    var ready := Step(config, reset, Ready(owner));
    Follows(config, s, ResetBudget, [Ready(owner), Exit(owner)]);
    Follows(config, reset, Ready(owner), [Exit(owner)]);
    Follows(config, ready, Exit(owner), []);
    assert Orderly(config, reset, [Ready(owner), Exit(owner)]);
  }

  /**
    * The restart a user asks for, whatever came before: recovery is cancelled, a restart in flight settles, the
    * budget is reset and a sidecar becomes ready. Its exit is answered with the first attempt.
    */
  lemma UserRestartRenews(config: Config, s: State, ok: bool, owner: nat)
    requires Agrees(config, s) && config.maxAttempts > 0
    ensures var settles := if s.inFlight.Some? then [RestartSettles(ok)] else [];
            var events := [Cancel] + (settles + [ResetBudget, Ready(owner), Exit(owner)]);
            var end := Follow(config, s, events);
            && Orderly(config, s, events)
            && end.history.Then? && end.history.last == Scheduled(1, Delay(config, 0))
  {
    var settles := if s.inFlight.Some? then [RestartSettles(ok)] else [];
    var cancelled := Step(config, s, Cancel);
    Follows(config, s, Cancel, settles + [ResetBudget, Ready(owner), Exit(owner)]);
    var quiet := cancelled;
    RunningIsNotAhead(s.history);
    if s.inFlight.Some? {
      Follows(config, cancelled, RestartSettles(ok), [ResetBudget, Ready(owner), Exit(owner)]);
      quiet := Step(config, cancelled, RestartSettles(ok));
    } else {
      assert settles + [ResetBudget, Ready(owner), Exit(owner)] == [ResetBudget, Ready(owner), Exit(owner)];
    }
    RestartRenews(config, quiet, owner);
  }

  class Recovery {
    const config: Config
    var readyOwner: Option<nat>
    var attempts: nat
    var restartTimer: Option<nat>
    var stableTimer: Option<nat>
    var inFlight: Option<nat>
    var generation: nat
    var history: History

    constructor (config: Config)
      ensures this.config == config && Model() == START && Agrees(config, Model()) && Recovering(Model())
    {
      this.config := config;
      readyOwner, attempts, restartTimer, stableTimer := None, 0, None, None;
      inFlight, generation, history := None, 0, Begin;
    }

    function Model(): State
      reads this
    {
      State(readyOwner, attempts, restartTimer, stableTimer, inFlight, generation, history)
    }

    method Log(entry: Entry)
      modifies this`history
      ensures history == Then(old(history), entry)
    {
      history := Then(history, entry);
    }

    method ClearTimers()
      modifies this`restartTimer, this`stableTimer
      ensures restartTimer == None && stableTimer == None
    {
      restartTimer, stableTimer := None, None;
    }

    method Schedule()
      modifies this
      ensures Model() == Scheduling(config, old(Model()))
    {
      if restartTimer.Some? || inFlight.Some? { return; }
      if attempts >= config.maxAttempts {
        Log(Down(attempts));
        return;
      }
      var delay := Delay(config, attempts);
      attempts := attempts + 1;
      Log(Scheduled(attempts, delay));
      restartTimer := Some(generation);
    }

    method BecomesReady(owner: nat)
      modifies this
      ensures Model() == Step(config, old(Model()), Ready(owner))
    {
      readyOwner := Some(owner);
      stableTimer := Some(owner);
      Log(Readied(owner));
    }

    method OwnerExits(owner: nat)
      modifies this
      ensures Model() == Step(config, old(Model()), Exit(owner))
    {
      Log(Exited(owner));
      if readyOwner != Some(owner) { return; }
      readyOwner := None;
      stableTimer := None;
      Schedule();
    }

    method CancelAll()
      modifies this
      ensures Model() == Step(config, old(Model()), Cancel)
    {
      generation := generation + 1;
      readyOwner := None;
      ClearTimers();
      Log(Cancelled);
    }

    method ResetAttempts()
      modifies this
      ensures Model() == Step(config, old(Model()), ResetBudget)
    {
      attempts := 0;
      Log(Reset);
    }

    /** The callback of the restart timer up to the call of `restart`. */
    method StartRestart()
      requires restartTimer.Some?
      modifies this
      ensures Model() == Step(config, old(Model()), RestartTimerFires)
    {
      var ownerGeneration := restartTimer;
      restartTimer := None;
      inFlight := ownerGeneration;
      Log(Started);
    }

    /** The callback of the restart timer after `restart` has resolved or rejected. */
    method FinishRestart(ok: bool)
      requires inFlight.Some?
      modifies this
      ensures Model() == Step(config, old(Model()), RestartSettles(ok))
    {
      var ownerGeneration := inFlight.value;
      if ok && generation == ownerGeneration && readyOwner.Some? {
        Log(Navigated);
        Log(Up(attempts));
      }
      inFlight := None;
      Log(Settled(ok));
      if generation == ownerGeneration && readyOwner.None? {
        Schedule();
      }
    }

    method OwnerIsStable()
      requires stableTimer.Some?
      modifies this
      ensures Model() == Step(config, old(Model()), StableTimerFires)
    {
      if readyOwner == stableTimer {
        attempts := 0;
        Log(Stable(stableTimer.value));
      }
      stableTimer := None;
    }

    method Take(event: Event)
      requires Possible(Model(), event)
      modifies this
      ensures Model() == Step(config, old(Model()), event)
    {
      match event
      case Ready(owner) => BecomesReady(owner);
      case Exit(owner) => OwnerExits(owner);
      case Cancel => CancelAll();
      case ResetBudget => ResetAttempts();
      case RestartTimerFires => StartRestart();
      case StableTimerFires => OwnerIsStable();
      case RestartSettles(ok) => FinishRestart(ok);
    }

    /** Any events in any order; those that are not allowed are passed over. */
    method Run(events: seq<Event>)
      requires Agrees(config, Model())
      modifies this
      ensures Agrees(config, Model()) && Model() == Follow(config, old(Model()), events)
      ensures history == Tell(config, old(history), events) && Lawful(config, history)
    {
      RunTells(config, Model(), events);
      var i := 0;
      while i < |events|
        invariant 0 <= i <= |events| && Agrees(config, Model())
        invariant Follow(config, Model(), events[i..]) == Follow(config, old(Model()), events)
      {
        assert events[i..][0] == events[i] && events[i..][1..] == events[i + 1..];
        if Allowed(Model(), events[i]) {
          StepRecovers(config, Model(), events[i]);
          Take(events[i]);
        }
        i := i + 1;
      }
    }
  }
}
