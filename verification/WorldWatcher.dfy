/**
  * The reloads of `apps/server/src/world-file-watcher.ts`: one debounce timer and one chain of reloads per
  * directory. Timers firing, reloads starting and settling, and cleanups are events of their own.
  */
module WorldWatcher {
  import opened Wrappers

  type Directory = nat

  datatype Status = Unstarted | Running | Settled

  /** A reload and the one it waits for. */
  datatype Reload = Reload(directory: Directory, previous: Option<nat>, status: Status)

  datatype Event =
    | Changes(d: Directory) | TimerFires(d: Directory)
    | Starts(r: nat) | Settles(r: nat) | CleansUp(r: nat) | Stops

  /** Everything of this directory before number `n` has settled. */
  predicate SettledBefore(reloads: seq<Reload>, d: Directory, n: nat)
    requires n <= |reloads|
  {
    forall i :: 0 <= i < n && reloads[i].directory == d ==> reloads[i].status == Settled
  }

  /** What a reload waits for is the last one of its directory that may not have settled. */
  predicate Chained(reloads: seq<Reload>, r: nat)
    requires r < |reloads|
  {
    var reload := reloads[r];
    && (reload.previous.Some? ==>
          reload.previous.value < r && reloads[reload.previous.value].directory == reload.directory)
    && (forall i :: 0 <= i < r && reloads[i].directory == reload.directory ==>
          reloads[i].status == Settled || (reload.previous.Some? && i <= reload.previous.value))
    && (reload.status != Unstarted ==> SettledBefore(reloads, reload.directory, r))
  }

  class Watcher {
    var watching: bool
    var timers: set<Directory>
    /** The `reloads` map: the newest reload of a directory until it is cleaned up. */
    var latest: map<Directory, nat>
    var reloads: seq<Reload>
    /** The reloads `stop()` waits for. */
    var awaited: Option<set<nat>>
    /** Directories that changed after their last reload to start had started. */
    ghost var dirty: set<Directory>

    ghost predicate Valid()
      reads this
    {
      && (forall r :: 0 <= r < |reloads| ==> Chained(reloads, r))
      && (forall d :: d in latest ==> latest[d] < |reloads| && reloads[latest[d]].directory == d)
      && (forall r :: 0 <= r < |reloads| ==>
            if reloads[r].directory in latest then r <= latest[reloads[r].directory] else reloads[r].status == Settled)
      && (watching ==> awaited.None? && forall d :: d in dirty ==> d in timers || Unserved(d))
      && (!watching ==> timers == {} && awaited.Some?)
      && (awaited.Some? ==> forall d :: d in latest ==>
            latest[d] in awaited.value || SettledBefore(reloads, d, |reloads|))
      && (awaited.Some? ==> forall r :: r in awaited.value ==> r < |reloads|)
    }

    /** A reload of this directory has not started yet. */
    predicate Unserved(d: Directory)
      reads this
    {
      exists r :: 0 <= r < |reloads| && reloads[r].directory == d && reloads[r].status == Unstarted
    }

    constructor ()
      ensures Valid() && watching && reloads == [] && timers == {} && dirty == {}
    {
      watching, timers, latest, reloads, awaited, dirty := true, {}, map[], [], None, {};
    }

    /** `scheduleReload`: a new timer replaces the old one. */
    method Change(d: Directory)
      requires Valid()
      modifies this`timers, this`dirty
      ensures Valid() && (watching ==> timers == old(timers) + {d} && dirty == old(dirty) + {d})
    {
      if watching {
        timers := timers + {d};
        dirty := dirty + {d};
      }
    }

    /** The callback of a timer: a reload is chained after the newest one. */
    method Fire(d: Directory)
      requires Valid() && d in timers
      modifies this`timers, this`latest, this`reloads
      ensures Valid() && timers == old(timers) - {d}
      ensures reloads == old(reloads) + [Reload(d, if d in old(latest) then Some(old(latest)[d]) else None, Unstarted)]
    {
      timers := timers - {d};
      var previous := if d in latest then Some(latest[d]) else None;
      ghost var was := reloads;
      reloads := reloads + [Reload(d, previous, Unstarted)];
      latest := latest[d := |reloads| - 1];
      forall r | 0 <= r < |was| ensures Chained(reloads, r) { assert Chained(was, r); }
      assert reloads[|was|].directory == d && reloads[|was|].status == Unstarted;
      forall e | e in dirty ensures e in timers || Unserved(e) {
        if e != d && e !in timers {
          var r :| 0 <= r < |was| && was[r].directory == e && was[r].status == Unstarted;
          assert reloads[r] == was[r];
        }
      }
    }

    /** What a reload waits for has settled. */
    predicate MayStart(r: nat)
      requires r < |reloads|
      requires reloads[r].previous.Some? ==> reloads[r].previous.value < |reloads|
      reads this
    {
      reloads[r].status == Unstarted
      && (reloads[r].previous.Some? ==> reloads[reloads[r].previous.value].status == Settled)
    }

    method Start(r: nat)
      requires Valid() && r < |reloads| && Chained(reloads, r) && MayStart(r)
      modifies this`reloads, this`dirty
      ensures Valid() && reloads == old(reloads)[r := old(reloads)[r].(status := Running)]
      ensures dirty == old(dirty) - {reloads[r].directory}
    {
      ghost var was := reloads;
      var d := reloads[r].directory;
      if reloads[r].previous.Some? {
        assert Chained(was, was[r].previous.value);
      }
      assert SettledBefore(was, d, r);
      reloads := reloads[r := reloads[r].(status := Running)];
      dirty := dirty - {d};
      forall i | 0 <= i < |reloads| ensures Chained(reloads, i) { assert Chained(was, i); }
      forall e | watching && e in dirty ensures e in timers || Unserved(e) {
        if e !in timers {
          var i :| 0 <= i < |was| && was[i].directory == e && was[i].status == Unstarted;
          assert reloads[i] == was[i];
        }
      }
    }

    method Settle(r: nat)
      requires Valid() && r < |reloads| && reloads[r].status == Running
      modifies this`reloads
      ensures Valid() && reloads == old(reloads)[r := old(reloads)[r].(status := Settled)]
    {
      ghost var was := reloads;
      reloads := reloads[r := reloads[r].(status := Settled)];
      forall i | 0 <= i < |reloads| ensures Chained(reloads, i) { assert Chained(was, i); }
      forall e | watching && e in dirty ensures e in timers || Unserved(e) {
        if e !in timers {
          var i :| 0 <= i < |was| && was[i].directory == e && was[i].status == Unstarted;
          assert reloads[i] == was[i];
        }
      }
    }

    /** The callback after a reload: it leaves the map unless a newer one has taken its place. */
    method CleanUp(r: nat)
      requires Valid() && r < |reloads| && reloads[r].status == Settled
      modifies this`latest
      ensures Valid()
      ensures latest == if reloads[r].directory in old(latest) && old(latest)[reloads[r].directory] == r
                        then old(latest) - {reloads[r].directory} else old(latest)
    {
      var d := reloads[r].directory;
      assert Chained(reloads, r);
      if d in latest && latest[d] == r {
        latest := latest - {d};
      }
    }

    method Stop()
      requires Valid()
      modifies this`watching, this`timers, this`awaited
      ensures Valid() && !watching && timers == {}
      ensures awaited == if old(watching) then Some(latest.Values) else old(awaited)
    {
      if watching {
        watching := false;
        timers := {};
        awaited := Some(latest.Values);
        assert forall d :: d in latest ==> latest[d] in latest.Values;
      }
    }

    /** The promise of `stop()` has resolved. */
    predicate Stopped()
      requires awaited.Some? ==> forall r :: r in awaited.value ==> r < |reloads|
      reads this
    {
      awaited.Some? && forall r :: r in awaited.value ==> reloads[r].status == Settled
    }

    /** Once `stop` has resolved no reload runs or will run. */
    lemma StoppedMeansQuiet()
      requires Valid() && !watching && Stopped()
      ensures timers == {} && forall r :: 0 <= r < |reloads| ==> reloads[r].status == Settled
    {
      forall r | 0 <= r < |reloads| ensures reloads[r].status == Settled {
        var d := reloads[r].directory;
        if d in latest {
          assert Chained(reloads, latest[d]);
        }
      }
    }

    /** Reloads of one directory start in the order of their timers, each after all before it have settled. */
    lemma InOrder(first: nat, second: nat)
      requires Valid() && first < second < |reloads|
      requires reloads[first].directory == reloads[second].directory && reloads[second].status != Unstarted
      ensures reloads[first].status == Settled
    {
      assert Chained(reloads, second);
    }

    /** A reload that has not started is never stuck: it, or one before it, runs or may start. */
    lemma {:induction false} NeverStuck(r: nat) returns (next: nat)
      requires Valid() && r < |reloads| && reloads[r].status == Unstarted
      ensures next <= r && reloads[next].directory == reloads[r].directory
      ensures Chained(reloads, next) && (reloads[next].status == Running || MayStart(next))
    {
      assert Chained(reloads, r);
      if reloads[r].previous.None? || reloads[reloads[r].previous.value].status == Settled {
        next := r;
      } else if reloads[reloads[r].previous.value].status == Running {
        next := reloads[r].previous.value;
        assert Chained(reloads, next);
      } else {
        next := NeverStuck(reloads[r].previous.value);
      }
    }

    /** While the watcher runs, every change waits for a timer or for a reload that will come to start. */
    lemma ChangeIsServed(d: Directory) returns (r: nat)
      requires Valid() && watching && d in dirty && d !in timers
      ensures r < |reloads| && reloads[r].directory == d
      ensures Chained(reloads, r) && (reloads[r].status == Running || MayStart(r))
    {
      var unstarted :| 0 <= unstarted < |reloads| && reloads[unstarted].directory == d
                       && reloads[unstarted].status == Unstarted;
      r := NeverStuck(unstarted);
    }

    method Step(event: Event)
      requires Valid()
      modifies this
      ensures Valid()
    {
      match event
      case Changes(d) => Change(d);
      case TimerFires(d) => if d in timers { Fire(d); }
      case Starts(r) =>
        if r < |reloads| {
          assert Chained(reloads, r);
          if MayStart(r) { Start(r); }
        }
      case Settles(r) => if r < |reloads| && reloads[r].status == Running { Settle(r); }
      case CleansUp(r) => if r < |reloads| && reloads[r].status == Settled { CleanUp(r); }
      case Stops => Stop();
    }

    /** Any order of events; those that cannot happen are passed over. */
    method Run(events: seq<Event>)
      requires Valid()
      modifies this
      ensures Valid()
      ensures !watching && Stopped() ==> forall r :: 0 <= r < |reloads| ==> reloads[r].status == Settled
    {
      for i := 0 to |events|
        invariant Valid()
      {
        Step(events[i]);
      }
      if !watching && Stopped() {
        StoppedMeansQuiet();
      }
    }
  }
}
