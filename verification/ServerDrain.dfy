/** The shutdown drain of `apps/server/src/server-resources.ts`, interleaved with request work. */
module ServerDrain {
  import opened RequestWork

  datatype Phase = Producers | Memory | Plugins | EventBus | Media | Store | LockPool | IngestPool

  /** Which resources have been created. `otherProducers` are all producers but the request work. */
  datatype Resources = Resources(
    work: bool, otherProducers: nat, api: bool, media: bool, store: bool, lockPool: bool, ingestPool: bool)

  function Rank(p: Phase): nat
  {
    match p
    case Producers => 0 case Memory => 1 case Plugins => 2 case EventBus => 3
    case Media => 4 case Store => 5 case LockPool => 6 case IngestPool => 7
  }

  predicate Exists(res: Resources, p: Phase)
  {
    match p
    case Producers => true case Memory => true
    case Plugins => res.api case EventBus => res.api
    case Media => res.media case Store => res.store
    case LockPool => res.lockPool case IngestPool => res.ingestPool
  }

  /** The phases of existing resources among these, in order. */
  function Phases(res: Resources, all: seq<Phase>): seq<Phase>
  {
    if all == [] then [] else (if Exists(res, all[0]) then [all[0]] else []) + Phases(res, all[1..])
  }

  const ALL_PHASES := [Producers, Memory, Plugins, EventBus, Media, Store, LockPool, IngestPool]

  predicate Increasing(plan: seq<Phase>)
  {
    forall i, j :: 0 <= i < j < |plan| ==> Rank(plan[i]) < Rank(plan[j])
  }

  lemma {:induction false} PhasesInOrder(res: Resources, all: seq<Phase>)
    requires Increasing(all)
    ensures Increasing(Phases(res, all))
    ensures forall p :: p in Phases(res, all) <==> p in all && Exists(res, p)
  {
    if all == [] {
    } else {
      assert all == [all[0]] + all[1..];
      PhasesInOrder(res, all[1..]);
      assert forall p :: p in all[1..] ==> Rank(all[0]) < Rank(p);
    }
  }

  /** The phases to call: each existing one once, in order. */
  predicate IsPlan(res: Resources, plan: seq<Phase>)
  {
    Increasing(plan) && forall p :: p in plan <==> Exists(res, p)
  }

  lemma PlanExists(res: Resources)
    ensures IsPlan(res, Phases(res, ALL_PHASES))
  {
    PhasesInOrder(res, ALL_PHASES);
    assert ALL_PHASES[0] == Producers && ALL_PHASES[1] == Memory && ALL_PHASES[2] == Plugins
        && ALL_PHASES[3] == EventBus && ALL_PHASES[4] == Media && ALL_PHASES[5] == Store
        && ALL_PHASES[6] == LockPool && ALL_PHASES[7] == IngestPool;
    forall p ensures p in ALL_PHASES { assert ALL_PHASES[Rank(p)] == p; }
  }

  lemma PhasesFrom(res: Resources, i: nat)
    requires i < |ALL_PHASES|
    ensures Phases(res, ALL_PHASES[i..]) ==
            (if Exists(res, ALL_PHASES[i]) then [ALL_PHASES[i]] else []) + Phases(res, ALL_PHASES[i + 1..])
  {
    assert ALL_PHASES[i..][1..] == ALL_PHASES[i + 1..];
  }

  /** What is there to close once nothing uses it: media before the store, and the pools last. */
  function Leaves(res: Resources): seq<Phase>
  {
    (if res.media then [Media] else []) + (if res.store then [Store] else [])
    + (if res.lockPool then [LockPool] else []) + (if res.ingestPool then [IngestPool] else [])
  }

  lemma LeavesAre(res: Resources)
    ensures Phases(res, ALL_PHASES[4..]) == Leaves(res)
  {
    PhasesFrom(res, 4);
    PhasesFrom(res, 5);
    PhasesFrom(res, 6);
    PhasesFrom(res, 7);
  }

  /** The plan, said in the resources: which phases there are, and that they come in this order. */
  lemma PlanIs(res: Resources)
    ensures Phases(res, ALL_PHASES) ==
            [Producers, Memory] + ((if res.api then [Plugins, EventBus] else []) + Leaves(res))
  {
    assert ALL_PHASES[0..] == ALL_PHASES;
    PhasesFrom(res, 0);
    PhasesFrom(res, 1);
    PhasesFrom(res, 2);
    PhasesFrom(res, 3);
    LeavesAre(res);
  }

  lemma StartsWithProducers(res: Resources, plan: seq<Phase>)
    requires IsPlan(res, plan)
    ensures plan != [] && plan[0] == Producers
  {
    assert Producers in plan;
  }

  /** A phase that exists and comes before another one is called before it. */
  lemma CalledBefore(res: Resources, plan: seq<Phase>, p: Phase, i: nat) returns (j: nat)
    requires IsPlan(res, plan) && i < |plan| && Exists(res, p) && Rank(p) < Rank(plan[i])
    ensures j < i && plan[j] == p
  {
    assert p in plan;
    j :| 0 <= j < |plan| && plan[j] == p;
  }

  /** A phase whose failure leaves all later resources open. */
  predicate Gate(p: Phase) { Rank(p) <= 3 }

  datatype Progress = Idle | Requested | InPhase(k: nat) | Finished

  datatype Event =
    | Arrives(c: int) | HandlerEnds(r: nat) | ChildStarts(r: nat) | ChildEnds(r: nat)
    | Shutdown | DrainBegins | WorkIsClosed | WorkIsAwaited | ProducerStops
    | Settles(ok: bool, pendingTasks: nat)

  class Server {
    const res: Resources
    const work: ApplicationWork
    /** All phases there are to call. */
    const plan: seq<Phase>
    var progress: Progress
    /** The phases whose disposers have been invoked, in order. */
    var called: seq<Phase>
    /** The phases that have failed or timed out. */
    var failed: set<Phase>
    /** How many of the other producers have stopped. */
    var stopped: nat
    /** Memory tasks still pending when the memory phase ended. */
    var tasksLeft: nat

    constructor (res: Resources)
      ensures this.res == res && plan == Phases(res, ALL_PHASES) && fresh(work)
      ensures Valid() && progress == Idle && called == []
    {
      this.res, plan := res, Phases(res, ALL_PHASES);
      work := new ApplicationWork();
      progress, called, failed, stopped, tasksLeft := Idle, [], {}, 0, 0;
      PlanExists(res);
    }

    /** The phases called are the first ones in order; all gates before the last were passed. */
    ghost predicate Valid()
      reads this, work
    {
      && work.Valid()
      && IsPlan(res, plan) && plan == Phases(res, ALL_PHASES) && called <= plan
      && (progress == Idle || progress == Requested ==> called == [])
      && (progress.InPhase? ==> |called| == progress.k + 1)
      && (progress == Finished ==>
            called != [] && (called == plan || Blocked(called[|called| - 1])))
      && (forall i :: 0 <= i < |called| - 1 ==> Passed(called[i]))
    }

    /** The drain went past this phase. */
    predicate Passed(p: Phase)
      reads this, work
    {
      && (Gate(p) ==> p !in failed)
      && (p == Memory ==> tasksLeft == 0)
      && (p == Producers ==> stopped == res.otherProducers && (res.work ==> work.Closed()))
    }

    /** The drain stopped at this phase. */
    predicate Blocked(p: Phase)
      reads this
    {
      Gate(p) && (p in failed || (p == Memory && tasksLeft > 0))
    }

    /** The function the drain is called by: later calls share the first one's promise. */
    method RequestShutdown()
      requires Valid()
      modifies this`progress
      ensures Valid() && progress == if old(progress) == Idle then Requested else old(progress)
    {
      if progress == Idle {
        progress := Requested;
      }
    }

    /** The drain starts: producers are told to stop before anything is waited for. */
    method Begin()
      requires Valid() && progress == Requested
      modifies this`progress, this`called
      ensures Valid() && progress == InPhase(0) && called == [Producers]
    {
      StartsWithProducers(res, plan);
      progress, called := InPhase(0), [Producers];
    }

    method StopProducer()
      requires Valid() && called != [] && stopped < res.otherProducers
      modifies this`stopped
      ensures Valid() && stopped == old(stopped) + 1
    {
      stopped := stopped + 1;
    }

    /** The current phase's race ends: `ok` when its disposers resolved in time. */
    method Record(ok: bool, pendingTasks: nat)
      requires Valid() && progress.InPhase? && EndsAs(ok)
      modifies this`failed, this`tasksLeft
      ensures Valid()
      ensures var p := called[progress.k];
              && failed == (if ok then old(failed) else old(failed) + {p})
              && tasksLeft == (if p == Memory then (if res.api then pendingTasks else 0) else old(tasksLeft))
              && (Passed(p) <==> !Blocked(p))
    {
      var k := progress.k;
      var p := called[k];
      StartsWithProducers(res, plan);
      assert p == Producers ==> k == 0;
      assert forall i :: 0 <= i < k ==> called[i] != p;
      if !ok {
        failed := failed + {p};
      }
      if p == Memory {
        tasksLeft := if res.api then pendingTasks else 0;
      }
    }

    /** Go on to the next phase, or return. */
    method Advance()
      requires Valid() && progress.InPhase?
      requires Passed(called[progress.k]) <==> !Blocked(called[progress.k])
      modifies this`progress, this`called
      ensures Valid()
      ensures if Blocked(old(called[progress.k])) || old(called) == plan
              then progress == Finished && called == old(called)
              else progress == InPhase(|old(called)|) && called == plan[..|old(called)| + 1]
    {
      var k := progress.k;
      if Blocked(called[k]) || k + 1 == |plan| {
        progress := Finished;
        assert k + 1 == |plan| ==> called == plan;
      } else {
        called := called + [plan[k + 1]];
        progress := InPhase(k + 1);
      }
    }

    /** The producers' phase can end well only when all of them have stopped. */
    predicate EndsAs(ok: bool)
      reads this, work
    {
      progress == InPhase(0) && ok ==> stopped == res.otherProducers && (res.work ==> work.Closed())
    }

    /** The drain passed every gate before a phase it has called. */
    lemma GatesPassed(gate: Phase, p: Phase)
      requires Valid() && p in called && Exists(res, gate) && Rank(gate) < Rank(p)
      ensures gate in called && Passed(gate)
    {
      var i: nat :| i < |called| && called[i] == p;
      assert plan[i] == p;
      var j := CalledBefore(res, plan, gate, i);
      assert called[j] == gate;
    }

    /** Past the producers, and so before any resource is closed, no request work runs or is admitted. */
    lemma ClosesQuietly(p: Phase)
      requires Valid() && res.work && p in called && p != Producers
      ensures work.NothingRuns() && work.closing
    {
      GatesPassed(Producers, p);
      work.ClosedMeansQuiet();
    }

    /** The store is closed only after every gate was passed with no memory task left. */
    lemma StoreNeedsGates()
      requires Valid() && Store in called
      ensures Producers !in failed && Memory !in failed && tasksLeft == 0
      ensures res.api ==> Plugins !in failed && EventBus !in failed
      ensures res.work ==> work.NothingRuns()
    {
      GatesPassed(Producers, Store);
      GatesPassed(Memory, Store);
      if res.api { GatesPassed(Plugins, Store); GatesPassed(EventBus, Store); }
      if res.work { ClosesQuietly(Store); }
    }

    /** A drain that reached one of the phases after the gates has called all of them, whichever failed. */
    lemma LeavesAllCalled(p: Phase)
      requires Valid() && progress == Finished && p in called && !Gate(p)
      ensures called == plan
    {
      var i :| 0 <= i < |called| && called[i] == p;
      assert plan[i] == p && plan[|called| - 1] == called[|called| - 1];
    }

    /** The gates before a phase, by name: those that exist were called and passed. */
    predicate AfterGates(p: Phase)
      reads this, work
    {
      && (p != Producers ==> Producers in called && Passed(Producers))
      && (p != Producers && p != Memory ==> Memory in called && Passed(Memory))
      && (res.api && p !in {Producers, Memory, Plugins} ==> Plugins in called && Passed(Plugins))
      && (res.api && p !in {Producers, Memory, Plugins, EventBus} ==> EventBus in called && Passed(EventBus))
    }

    lemma CalledAfterGates(p: Phase)
      requires Valid() && p in called
      ensures AfterGates(p)
    {
      if p != Producers { GatesPassed(Producers, p); }
      if p != Producers && p != Memory { GatesPassed(Memory, p); }
      if res.api && p !in {Producers, Memory, Plugins} { GatesPassed(Plugins, p); }
      if res.api && p !in {Producers, Memory, Plugins, EventBus} { GatesPassed(EventBus, p); }
    }

    /** The producers stopped and memory is flushed, with nothing left to do. */
    predicate IsFlushed()
      reads this
    {
      Producers !in failed && Memory !in failed && tasksLeft == 0
    }

    /** Nothing uses the resources any more. */
    predicate IsReleased()
      reads this
    {
      IsFlushed() && (res.api ==> Plugins !in failed && EventBus !in failed)
    }

    /** When a finished drain has called a phase. */
    predicate IsDue(p: Phase)
      reads this
    {
      match p
      case Producers => true
      case Memory => Producers !in failed
      case Plugins => res.api && IsFlushed()
      case EventBus => res.api && IsFlushed() && Plugins !in failed
      case Media => res.media && IsReleased()
      case Store => res.store && IsReleased()
      case LockPool => res.lockPool && IsReleased()
      case IngestPool => res.ingestPool && IsReleased()
    }

    lemma CalledIsDue(p: Phase)
      requires Valid() && p in called
      ensures IsDue(p)
    {
      assert p in plan;
      CalledAfterGates(p);
    }

    lemma NotCalledIsNotDue(p: Phase)
      requires Valid() && progress == Finished && p !in called
      ensures !IsDue(p)
    {
      StartsWithProducers(res, plan);
      assert p in plan <==> Exists(res, p);
      if called != plan {
        var last := called[|called| - 1];
        assert last in called && last in plan && Blocked(last);
        CalledAfterGates(last);
      }
    }

    /**
      * What a finished drain has called, said in what failed: nothing after a gate that failed or left tasks,
      * and otherwise the closing of every resource there is.
      */
    lemma ClosedIff(p: Phase)
      requires Valid() && progress == Finished
      ensures p in called <==> IsDue(p)
    {
      if p in called {
        CalledIsDue(p);
      } else {
        NotCalledIsNotDue(p);
      }
    }

    /** One event of a request or of `close()`. One that cannot happen in the present state is passed over. */
    method WorkStep(event: Event)
      requires work.Valid()
      modifies work
      ensures work.Valid()
      ensures old(work.Closed()) ==> work.Closed()
    {
      match event
      case Arrives(c) => var _ := work.Arrive(c);
      case HandlerEnds(r) => if r in work.handlers { work.HandlerEnds(r); }
      case ChildStarts(r) => if r in work.pending { var _ := work.ChildStarts(r); }
      case ChildEnds(r) => if r in work.children && work.children[r] > 0 { work.ChildEnds(r); }
      case WorkIsClosed => if called != [] { work.Close(); }
      case WorkIsAwaited => if work.closing && work.awaited.None? { work.Await(); }
      case _ =>
    }

    /** One event of a request or of `close()`: the drain is where it was. */
    method RequestStep(event: Event)
      requires Valid()
      modifies work
      ensures Valid()
    {
      WorkStep(event);
    }

    /** The current phase's race ends, and the drain goes on or returns. */
    method Settle(ok: bool, pendingTasks: nat)
      requires Valid() && progress.InPhase? && EndsAs(ok)
      modifies this
      ensures Valid() && old(called) <= called
    {
      Record(ok, pendingTasks);
      Advance();
    }

    /** One event of the drain, or of a request. */
    method Step(event: Event)
      requires Valid()
      modifies this, work
      ensures Valid() && old(called) <= called
    {
      match event
      case Shutdown => RequestShutdown();
      case DrainBegins => if progress == Requested { Begin(); }
      case ProducerStops => if called != [] && stopped < res.otherProducers { StopProducer(); }
      case Settles(ok, pendingTasks) =>
        if progress.InPhase? && EndsAs(ok) { Settle(ok, pendingTasks); }
      case _ => RequestStep(event);
    }

    /** Any interleaving of requests, their children, other shutdown calls and the drain's own steps. */
    method Run(events: seq<Event>)
      requires Valid()
      modifies this, work
      ensures Valid() && old(called) <= called
      ensures Store in called && res.work ==> work.NothingRuns()
    {
      for i := 0 to |events|
        invariant Valid() && old(called) <= called
      {
        Step(events[i]);
      }
      if Store in called && res.work {
        StoreNeedsGates();
      }
    }
  }
}
